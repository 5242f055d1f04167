# Chat UI core, modelled in Dafny

A model of the logic inside a small React chat front end. The user types a
message, it is sent to a remote chat service, and both the message and the reply
are appended to a conversation log. The repository also holds a typewriter
component, which reveals a text one UTF-16 code unit per timer tick, and a code
block component, which shows a snippet with a label, a copy button and, for
HTML, a run button. None of the components renders either of these two, so
each is modelled on its own, and the typewriter's text is not connected to the
conversation log. Four components carry the logic, one Dafny module each:

- `TypeWriter` (`typewriter.dfy`) is the reveal state machine. The pure part has
  the state `Reveal(displayText, currentIndex)`, the invariant
  `Consistent`, one timer callback `Step`, and `Ticks` for n timer periods.
  Text is a sequence of UTF-16 code units (`Text`), as JavaScript's `length`
  and indexing see it; `Utf16` encodes a string of characters into it.
  The class `TypeWriterView` holds the component's fields and the number of
  timers it has pending. Its methods model the tick effect, a timer firing, a
  change of `text`, a change of the other effect dependencies, and unmounting.
- `ChatInterface` (`chat_interface.dfy`) is the conversation log. The class
  `Chat` holds `messages` and `isLoading`. Its methods are `handleSendMessage`
  split at its `await` (`BeginSend`, `FinishSend`) and whole (`Send`). The
  remote call is reduced to its `Outcome`, `Success(response)` or `Failure`.
  The pure `Transcript` gives the log that a sequence of completed sends
  produces. The class invariant ties `messages` to it.
- `ChatInput` (`chat_input.dfy`) is the submit guard. It holds JavaScript's
  `trim` (`TrimStart`, `TrimEnd`, `Trim`) over the exact set of characters the
  language standard calls WhiteSpace and LineTerminator. It also holds
  `Submission`, the value a submit forwards, and the send button's disabled
  condition. The class `ChatInputBox` holds the draft and the submit and
  key-down handlers.
- `CodeBlock` (`code_block.dfy`) holds the runnability predicate `CanRun`
  (built on `ToLower` and `Includes`) and the header label. The class
  `CodeBlockView` holds the `isRunning` and `copied` flags and the timers that
  clear them.

Some behaviour of the code is easy to misread; the model follows the code:

- The tick effect calls `onComplete` on every run where no character remains,
  not once per reveal (`TypeWriter.tsx:22-23`). The effect re-runs whenever
  `speed` or `onComplete` change (`TypeWriter.tsx:25`), so a finished reveal
  calls `onComplete` again (`TypeWriterView.DependenciesChanged`). The model
  promises that completion is reached when the text is fully shown and never
  earlier, and counts every call.
- The remote call receives only the new text, not the conversation history
  (`ChatInterface.tsx:41`).
- Replies are rendered verbatim (`MessageBubble.tsx:22`). No component splits
  a reply into text and code segments, so the model has no such splitting.
- The typing indicator is rendered inside the non-empty branch of the message
  list (`ChatInterface.tsx:81-101`). `Chat.TypingIndicatorShown` proves that,
  under the log invariant, it is shown exactly while `isLoading` holds.

## Model

| member | source | states |
|---|---|---|
| `TypeWriter.Step` | src/components/TypeWriter.tsx:16-19 | a tick, taken while code units remain, grows the display by exactly one code unit at the end, advances the index by one, and keeps the display equal to the text's prefix up to the index |
| `TypeWriter.Ticks` | src/components/TypeWriter.tsx:14-19 | n timer periods advance the index by at most n and never backwards, keep the display a prefix of the text, and fall short of n only when the whole text is shown (no timer is scheduled then); `TicksFrom` gives the exact state |
| `TypeWriter.Utf16` | src/components/TypeWriter.tsx:15-17 | the code units that `length` and indexing count: never fewer than the characters, and as many exactly when no character lies outside the Basic Multilingual Plane |
| `TypeWriter.EncodeChar` | src/components/TypeWriter.tsx:15-17 | a character inside the Basic Multilingual Plane is one code unit; one outside is two, the high surrogate 0xD800 + (c - 0x10000) / 0x400 and then the low surrogate 0xDC00 + (c - 0x10000) % 0x400 |
| `TypeWriter.AstralCharTakesTwoTicks` | src/components/TypeWriter.tsx:15-23 | "😀" is two code units: after one tick a lone high surrogate is displayed with the cursor still shown and no completion; completion comes after the second |
| `TypeWriter.CursorVisible` | src/components/TypeWriter.tsx:36 | while the reveal is consistent, the cursor is shown exactly when part of the text is still hidden |
| `TypeWriter.CompletesNow` | src/components/TypeWriter.tsx:22-23 | the effect reaches `onComplete` only when no character remains, which for a consistent state means the whole text is displayed |
| `TypeWriter.TicksFrom` | src/components/TypeWriter.tsx:15-19 | from the state showing k code units, n timer periods show min(k + n, length) code units, so the index never passes the end |
| `TypeWriter.FullRevealTakesLengthTicks` | src/components/TypeWriter.tsx:15-23 | from a reset, exactly length(text) ticks display the whole text and reach completion; fewer ticks do not reach completion |
| `TypeWriter.TicksCompose` | src/components/TypeWriter.tsx:14-25 | n timer periods followed by m periods give the same state as n + m periods |
| `TypeWriter.TicksStuck` | src/components/TypeWriter.tsx:15 | once no code unit remains no timer is scheduled, so time passing changes nothing |
| `TypeWriter.TypeWriterView.constructor` | src/components/TypeWriter.tsx:10-31 | mounting starts with an empty display at index 0, with one timer pending, or with completion reached at once for an empty text |
| `TypeWriter.TypeWriterView.RunTickEffect` | src/components/TypeWriter.tsx:14-25 | the cleanup clears the previous timer before the effect schedules a new one, so at most one timer is pending; otherwise `onComplete` is called, and only when the text is fully shown |
| `TypeWriter.TypeWriterView.Tick` | src/components/TypeWriter.tsx:16-19 | a firing timer takes exactly one `Step`, keeps the invariant and schedules the next tick or completes; with no timer pending nothing changes |
| `TypeWriter.TypeWriterView.SetText` | src/components/TypeWriter.tsx:28-31 | a different text resets the display to "" and the index to 0 whatever the progress, and then the tick effect runs; an equal text changes nothing |
| `TypeWriter.TypeWriterView.DependenciesChanged` | src/components/TypeWriter.tsx:25 | re-running the effect keeps the state and calls `onComplete` again when the text is fully shown |
| `TypeWriter.TypeWriterView.Unmount` | src/components/TypeWriter.tsx:21 | the cleanup clears the pending timer, so no later tick changes the state |
| `ChatInterface.ReplyText` | src/components/ChatInterface.tsx:41-59 | the reply is the service's response, whatever it is, on success and the fixed non-empty fallback text on failure; `TranscriptShape` places it right after the user text it answers |
| `ChatInterface.TranscriptShape` | src/components/ChatInterface.tsx:29-63 | a log built by n sends has 2n entries; entry 2i is the user text of send i and entry 2i+1 is its reply: the response on success, the fixed fallback text on failure |
| `ChatInterface.TranscriptGrows` | src/components/ChatInterface.tsx:37-59 | the log is append-only: later sends extend it by two entries per send and never alter earlier entries |
| `ChatInterface.Chat.constructor` | src/components/ChatInterface.tsx:17-18 | the log starts empty and not loading |
| `ChatInterface.Chat.EmptyStateShown` | src/components/ChatInterface.tsx:81 | under the log invariant, the welcome view is shown exactly when nothing has been sent |
| `ChatInterface.Chat.TypingIndicatorShown` | src/components/ChatInterface.tsx:81-101 | under the log invariant, the typing indicator is shown exactly while `isLoading` holds |
| `ChatInterface.Chat.BeginSend` | src/components/ChatInterface.tsx:30-38 | appends exactly one user message carrying the sent text, keeps every earlier message, and raises `isLoading` |
| `ChatInterface.Chat.FinishSend` | src/components/ChatInterface.tsx:40-62 | appends exactly one assistant message, the response on success or the fallback text on failure, then lowers `isLoading` in both cases, keeping the log invariant |
| `ChatInterface.Chat.Send` | src/components/ChatInterface.tsx:29-63 | a whole send grows the log by exactly two messages, the user message and then its reply, and ends not loading |
| `ChatInput.TrimStart` | src/components/ChatInput.tsx:17 | removes exactly the leading whitespace: the result is a suffix of the input, everything cut is whitespace, and the result does not start with whitespace |
| `ChatInput.TrimEnd` | src/components/ChatInput.tsx:17 | removes exactly the trailing whitespace: the result is a prefix of the input, everything cut is whitespace, and the result does not end with whitespace |
| `ChatInput.Trim` | src/components/ChatInput.tsx:17-18 | the result is a window of the input with only whitespace around it; it is empty exactly when the input is blank, and otherwise starts and ends with non-whitespace |
| `ChatInput.TrimWindow` | src/components/ChatInput.tsx:17-18 | trimming keeps a window of the input with whitespace-only margins on both sides |
| `ChatInput.TrimEmptyIffBlank` | src/components/ChatInput.tsx:17 | trimming gives "" exactly when every character is whitespace |
| `ChatInput.TrimEdges` | src/components/ChatInput.tsx:18 | a non-empty trimmed string neither begins nor ends with whitespace |
| `ChatInput.TrimIdempotent` | src/components/ChatInput.tsx:18 | trimming the forwarded value again changes nothing |
| `ChatInput.CanSubmit` | src/components/ChatInput.tsx:17 | the submit guard holds exactly when the draft is not blank and no reply is awaited (`TrimEmptyIffBlank` links `trim() == ""` to blankness) |
| `ChatInput.Submission` | src/components/ChatInput.tsx:17-18 | a submit forwards something exactly when the draft is not blank and no reply is awaited, and then it forwards the trimmed draft, which is non-empty and has no surrounding whitespace |
| `ChatInput.SendButtonDisabled` | src/components/ChatInput.tsx:45 | the send button is disabled exactly when a submit would forward nothing, that is, for a blank draft or while loading |
| `ChatInput.ChatInputBox.constructor` | src/components/ChatInput.tsx:13 | the draft starts empty |
| `ChatInput.ChatInputBox.Change` | src/components/ChatInput.tsx:36 | an edit replaces the draft |
| `ChatInput.ChatInputBox.HandleSubmit` | src/components/ChatInput.tsx:15-21 | forwards the `Submission` of the draft; an accepted submit clears the draft, a rejected one sends nothing and keeps it |
| `ChatInput.ChatInputBox.HandleKeyDown` | src/components/ChatInput.tsx:23-28 | Enter without Shift suppresses the newline and submits; Enter with Shift or any other key sends nothing and leaves the draft |
| `CodeBlock.ToLower` | src/components/CodeBlock.tsx:39 | lower-casing keeps the length and folds each character on its own |
| `CodeBlock.Includes` | src/components/CodeBlock.tsx:39 | holds exactly when the pattern occurs at some position of the string |
| `CodeBlock.CanRun` | src/components/CodeBlock.tsx:39 | a snippet is runnable exactly when its language is "html" in any letter case, or "<html" or "<!DOCTYPE" occurs somewhere in its code exactly as written |
| `CodeBlock.HtmlLanguageAnyCase` | src/components/CodeBlock.tsx:39 | the language test accepts exactly the four-letter spellings of "html" with each letter in either case |
| `CodeBlock.ToLowerIdempotent` | src/components/CodeBlock.tsx:39 | lower-casing twice is lower-casing once |
| `CodeBlock.LanguageCaseIrrelevant` | src/components/CodeBlock.tsx:39 | the letter case of the language never changes whether a snippet is runnable |
| `CodeBlock.CodeMatchIsCaseSensitive` | src/components/CodeBlock.tsx:39 | the code tests are case-sensitive: "<HTML>" without a language is not runnable, "<html>" is, and so is the language "HTML" with empty code |
| `CodeBlock.DefaultLanguageUsesCodeOnly` | src/components/CodeBlock.tsx:39 | with the default empty language, runnability depends only on whether the code contains "<html" or "<!DOCTYPE" |
| `CodeBlock.HeaderLabel` | src/components/CodeBlock.tsx:45 | the header label is never empty: the language when it is given, otherwise "code" |
| `CodeBlock.CodeBlockView.constructor` | src/components/CodeBlock.tsx:13-15 | both flags start lowered, with no timer pending, so the invariant (each raised flag has a timer pending that will lower it) holds |
| `CodeBlock.CodeBlockView.RunCode` | src/components/CodeBlock.tsx:27-37 | the run guard is the `CanRun` condition; when it holds `isRunning` is raised and a reset timer scheduled, otherwise nothing changes; the invariant is kept |
| `CodeBlock.CodeBlockView.RunTimerFires` | src/components/CodeBlock.tsx:35 | a firing run timer lowers `isRunning` and leaves the copy state alone; the invariant is kept |
| `CodeBlock.CodeBlockView.CopyToClipboard` | src/components/CodeBlock.tsx:17-25 | a successful clipboard write raises `copied` and schedules its reset timer; a failed one changes nothing; the invariant is kept |
| `CodeBlock.CodeBlockView.CopyTimerFires` | src/components/CodeBlock.tsx:21 | a firing copy timer lowers `copied` and leaves the run state alone; the invariant is kept |

## Left out

- The remote call (`src/utils/apiService.ts`) is network I/O. Only its outcome
  is modelled, as `Success(response)` or `Failure`. That function catches every
  error and returns a string (`apiService.ts:17-19`), so with it the failure
  branch of `handleSendMessage` is never taken. The model keeps both outcomes,
  because the component is written against a call that may reject.
- Message ids and timestamps come from the clock (`Date.now()`, `new Date()`).
  They are parameters of `BeginSend`, `FinishSend` and `Send`, and no
  uniqueness is claimed. The string form of the id is not modelled.
- Concurrent sends are not modelled. `BeginSend` and `Send` require that no
  reply is awaited. The input ensures this by its busy guard (`ChatInput.tsx:17`)
  and by disabling the textarea while loading (`ChatInput.tsx:40`). That
  disabling is not modelled itself.
- Scrolling, layout, `MessageBubble.tsx` and `TypingIndicator.tsx` are pure
  presentation, including the locale time format.
- `TypeWriter.TypeWriterView.SetText`: when `text` changes, React runs the
  tick effect with the old index before the reset effect. That can call
  `onComplete` spuriously or schedule a stale timer that is cleared at once.
  The model resets first and then runs the tick effect.
- The typewriter's `speed` (the timer interval) is not modelled. Time is counted
  in timer periods (`Ticks`). `onComplete` is modelled as provided: the
  `completions` counter counts the calls that would be made.
- `CodeBlock.ToLower` folds only the ASCII letters. Full Unicode lower-casing
  is not modelled. For the comparison with "html" the result is the same,
  since only H, T, M and L lower-case to h, t, m and l.
- The clipboard write, `window.open`/`document.write` and the 2000 ms and
  1000 ms delays in `CodeBlock.tsx` are not modelled. The write's success is a
  parameter. Each delay is a pending timer that a later event fires.
- Several presentation details are not modelled: the run button being disabled
  while `isRunning` (`CodeBlock.tsx:53`), its "Running..."/"Copied!" captions,
  and the upper-case styling of the header label.
- Logging is not modelled: the `console.error` calls on a failed send
  (`ChatInterface.tsx:52`) and on a failed clipboard write (`CodeBlock.tsx:23`)
  have no effect on the state.
- The form's `preventDefault` on submit (`ChatInput.tsx:16`) only stops a page
  reload, so it is not modelled.
- No fence segmenter is modelled, because none of the components implements one.
