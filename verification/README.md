# CodeMax chat core in Dafny

CodeMax is a single-page chat UI. It sends a prompt, optionally with an attached
image, to a hosted model. It streams the answer back, pulls the first embedded
HTML document out of it, and keeps that document as a "creation" shown in a
preview pane. This project models the three pieces of that pipeline that are
sequential logic. The rest is React rendering and calls into a third-party client.

- **HTML extraction** (`HtmlExtract`). `extractHtml` applies the case-insensitive
  pattern `<!DOCTYPE html>[\s\S]*?</html>|<html[\s\S]*?</html>`. The model
  writes it as an explicit search over `seq<char>`: each start index in turn,
  the DOCTYPE alternative first, and a lazy body that stops at the first closer.
  `IsMatch` is an independent description of the spans the pattern accepts.
  The lemmas prove that the search returns the leftmost match, and the shortest
  one at that start. They also prove that the result is `null` exactly when no
  span matches.
  Case-insensitivity is ASCII folding: a `/i` expression without the `u` flag
  never maps a non-ASCII character onto an ASCII one, and every delimiter is ASCII.
- **Stream relay** (`Gemini`). `chatStream` is a fold over the chunk texts the
  provider delivers. A missing `text` counts as `""`. Each chunk publishes the
  cumulative text once. The relay sends only the last message of the history.
  `getSystemInstruction` picks the variant label by model id.
- **Session reducer** (`App`). `handleSend` is one sequential transition over an
  immutable `Session` snapshot. It records the request sent, the snapshot after
  the user message and placeholder are appended, one snapshot per streamed
  increment, and the settled state. Also modelled: `startNewChat`, picking a
  history entry, previewing the HTML of one message part, resetting the
  preview, and the verify control's prompt.

The provider's behaviour in one exchange is the input `Reply`: the chunks it
delivers, and whether it then fails. `crypto.randomUUID()` and `new Date()`
become the `TurnEnv` parameter.

In these places the code behaves in ways a reader may not expect; the model follows the code:

- A failed exchange does not overwrite the placeholder. It keeps whatever was
  streamed into it and appends a new model message, "System error. Please retry.",
  which has no model name.
- A send while `isGenerating` is true is not ignored. Only the send button is
  disabled. The Enter key calls `handleSend` unconditionally
  (`HandleSendIgnoresGeneratingFlag`).
- `CODEMAX_PRO` and `CODEMAX_BETA` are the same model id, so the later BETA test
  always wins. The label "PRO Architect" is never produced (`Variant`).
- `aiText` is the last `onChunk` argument. The value `chatStream` returns is
  discarded. The two are equal for a completed stream (`CompletedIsLastPublished`).
- The source's `if (html)` tests for the empty string as well. A match is never
  empty, because `IsHtmlDocument` requires at least the opener and the closer,
  so the model tests only for presence.
- With no active creation, the verify prompt interpolates `undefined` as that
  literal word.

## Model

| member | source | states |
|---|---|---|
| `Text.Trim` | App.tsx:80 | `trim` returns the slice left once whitespace is dropped at both ends, with no whitespace at either end; it is empty, so `!promptText.trim()` holds, exactly when the prompt is all whitespace |
| `Text.SkipLeading` | App.tsx:80 | the scan from the left stops at the first character that is not JavaScript whitespace, every character it passes is whitespace, and it stops at the end when there is none |
| `Text.SkipTrailing` | App.tsx:80 | the scan from the right stops just after the last character that is not whitespace, and never passes the left end |
| `Text.OccursInSlice` | App.tsx:119 | an occurrence of a delimiter in a span of the text is the same as an occurrence in the text at the shifted index |
| `Text.FoldKeepsPunctuation` | App.tsx:119 | case-insensitive comparison treats the delimiter punctuation `< / ! > space` as itself only |
| `HtmlExtract.IsMatchIffFits` | App.tsx:119 | a span is accepted by the pattern exactly when one opener starts it, a closer ends it, and the two do not overlap |
| `HtmlExtract.OpenersExclusive` | App.tsx:119 | the two alternatives cannot both start at the same index, so trying DOCTYPE first does not hide an `<html` match |
| `HtmlExtract.FindClose` | App.tsx:119 | the lazy body stops at the first case-insensitive `</html>` at or after the opener, and absence means there is none |
| `HtmlExtract.AlternativeIsShortest` | App.tsx:119 | one alternative at one index returns the shortest span it accepts, and fails exactly when it accepts none |
| `HtmlExtract.MatchAtIsShortest` | App.tsx:119 | the pattern at one start index fails exactly when no span starting there matches; otherwise it returns the shortest such span |
| `HtmlExtract.Scan` | App.tsx:119 | scanning from index `i`, the result is a match that precedes every match starting at or after `i`; absence means every match starts before `i` |
| `HtmlExtract.FindHtml` | App.tsx:119-120 | `text.match` is null exactly when no span matches; otherwise its span starts no later than any match, and is no longer than any match with the same start |
| `HtmlExtract.ExtractHtml` | App.tsx:118-121 | `extractHtml` returns null exactly when no substring matches; otherwise a contiguous substring of the input that begins with an opener and ends with `</html>`, case-insensitively |
| `HtmlExtract.NoCloseInsideOpener` | App.tsx:119 | no `</html>` can begin inside `<!DOCTYPE html>` or `<html` |
| `HtmlExtract.CloseEndsShortestFit` | App.tsx:119 | in the shortest span an opener accepts at an index, a `</html>` that lies inside the span can only be the one that ends it |
| `HtmlExtract.ExtractHtmlClosesOnce` | App.tsx:119 | non-greedy: inside the extracted text, `</html>` occurs only as its suffix |
| `HtmlExtract.SingleCloseDocumentExtractsWhole` | App.tsx:119-120 | a document whose only closer is its suffix is extracted whole |
| `HtmlExtract.ExtractHtmlFixpoint` | App.tsx:118-121 | extracting from the extracted text gives the same text back |
| `Gemini.Variant` | services/gemini.ts:39-41 | the pro model id gets "BETA Experimental", every other id gets "v1.3 stable", and "PRO Architect" is unreachable, because the later BETA test overrides the PRO test and both tests compare against the same id |
| `Gemini.SystemInstructionLayout` | services/gemini.ts:29-44 | `getSystemInstruction` (`Gemini.SystemInstruction`) returns the base text first, the variant label right after " You are the ", and the verification protocol last |
| `Gemini.SystemInstructionDistinguishesOnlyPro` | services/gemini.ts:39-43 | only two instructions exist: two model ids get the same instruction exactly when both or neither are the pro model |
| `Gemini.ReceivedPrefixes` | services/gemini.ts:60-62 | a prefix of the chunk stream is received as the first chunk's text followed by the rest's prefix |
| `Gemini.Accumulate` | services/gemini.ts:59-64 | after the k-th chunk the loop publishes the starting text followed by the texts of chunks 1..k, with missing text read as "", once per chunk; the final total is all chunks |
| `Gemini.ChatStream` | services/gemini.ts:53-65 | only the last history message's parts are sent, with the model's instruction; the k-th `onChunk` argument is c1+...+ck; the promise rejects exactly when the exchange fails, else resolves with all text received |
| `Gemini.ReceivedAppend` | services/gemini.ts:61-62 | receiving two runs of chunks one after the other yields the concatenation of their texts |
| `Gemini.PublishedArePrefixOrdered` | services/gemini.ts:61-63 | every `onChunk` argument is a prefix of every later one |
| `Gemini.CompletedIsLastPublished` | services/gemini.ts:59-65 | the resolved text equals the last `onChunk` argument, or "" when no chunk arrived |
| `Gemini.OnlyLastMessageSent` | services/gemini.ts:53-57 | histories that differ only before their last message give the same request and run |
| `App.UserMessage` | App.tsx:82-85 | the user message has the prompt as its first part, and a second part with the attachment exactly when one is pending |
| `App.CreationName` | App.tsx:107 | the name is the prompt's first min(30, length) characters followed by "...", so a short prompt is kept whole |
| `App.ApplyIncrement` | App.tsx:97-101 | an increment replaces the last message's first text part; the list length, every earlier message, the rest of the last message and the rest of the session are unchanged |
| `App.IncrementOverwrites` | App.tsx:97-102 | applying a later increment erases the effect of an earlier one |
| `App.StreamInto` | App.tsx:96-103 | there is one snapshot per increment, and each equals the pre-stream state with only that increment applied |
| `App.StartNewChat` | App.tsx:129-132 | a new chat clears the messages and the active creation and leaves the history and every other field alone |
| `App.SelectCreation` | App.tsx:165-168 | picking a history entry makes it active and changes nothing else, the history order included |
| `App.ResetPreview` | App.tsx:348 | the preview reset deactivates the creation and changes nothing else |
| `App.EffectivePrompt` | App.tsx:79 | `overridePrompt || input`: a non-empty override is the prompt; an absent or empty one falls back to the input field |
| `App.HandleSend` | App.tsx:78-116 | `handleSend` returns early, changing nothing, exactly when the effective prompt is all whitespace and no attachment is pending; otherwise it runs the turn `App.RunTurn` describes |
| `App.OpenTurn` | App.tsx:82-94 | opening a turn appends the user message and an empty placeholder tagged with the active model, clears input and attachment, raises `isGenerating`, and changes nothing else |
| `App.Settle` | App.tsx:105-110 | when the text holds an HTML document, one creation with the truncated prompt name, the document, the id and the time is put in front of the history and made active; otherwise nothing changes |
| `App.Conclude` | App.tsx:92-115 | the turn always ends with `isGenerating` false; a failure appends the fallback message and leaves the creations alone; a success keeps the messages and settles |
| `App.VerifyPrompt` | App.tsx:349 | the verify prompt is the fixed preamble followed by the active creation's HTML, or the word `undefined` when none is active |
| `App.HandleSendOpensTurn` | App.tsx:82-96 | a turn appends the user message and an empty placeholder tagged with the active model; it clears input and attachment, raises `isGenerating`, changes nothing else, and sends the user message's parts |
| `App.LastSnapshot` | App.tsx:93-103 | once streaming ends, the state the turn continues from is the opened turn with the placeholder holding the last `onChunk` argument, or its empty text when nothing arrived |
| `App.RunTurn` | App.tsx:82-103 | a turn that passes the guard appends the user message and placeholder, sends that message's parts with the model's instruction, and yields one state per chunk whose placeholder holds c1+...+ck, overwritten rather than appended to |
| `App.RunTurnConcludes` | App.tsx:93-115 | the turn concludes from the placeholder holding everything received, searches that same text for HTML, settles on success and appends the fallback message on failure |
| `App.HandleSendCompleted` | App.tsx:105-110 | on success with HTML, exactly one creation is prepended to the history; it carries the truncated prompt name, the extracted document, the given id and time, and becomes active; without HTML, history and active creation are unchanged |
| `App.HandleSendFailed` | App.tsx:111-112 | on failure, "System error. Please retry." is appended after the streamed messages; history and active creation are unchanged |
| `App.HandleSendSettles` | App.tsx:87-115 | every turn that runs ends with `isGenerating` false, the earlier messages kept, and two new messages, or three after a failure |
| `App.HandleSendIgnoresGeneratingFlag` | App.tsx:292 | `handleSend` never reads `isGenerating`: the transition a send runs is the same whatever the flag |
| `App.ButtonSendRuns` | App.tsx:315-317 | when the send button is enabled, its send is never a no-op |
| `App.VerifyAlwaysSends` | App.tsx:349 | the verify prompt is the fixed preamble followed by the active creation's HTML, or `undefined`; it is never blank, so verifying always starts a turn |
| `App.PreviewPart` | App.tsx:253 | a message's preview button activates the HTML extracted from that part as a temporary creation "temp"/"Preview", leaves the history alone, and does nothing when the part holds no document |
| `App.TransitionsKeepCreationsWellFormed` | App.tsx:105-110 | the initial state and every transition (send, new chat, reset, picking an entry, previewing a part) keep every creation holding an HTML document and the active one either in the history or a temporary preview; a send only adds to the history's front |

## Left out

- Rendering, styling, theme, scrolling, and markdown and code highlighting (App.tsx:54-76, and the markup at App.tsx:134-351 apart from the handlers modelled at 165-168, 253, 292, 315-317, 348 and 349, and the lines listed below). These are presentation only.
- Copying code to the clipboard, with its timer (App.tsx:123-127), and reading an attached file as base64 (App.tsx:332-342). These are browser I/O. An attachment enters the model as an already-converted `InlineData`.
- The provider client: constructing it, creating the chat session, and sending and iterating the stream (services/gemini.ts:6, 14, 27, 46-51, and the network call at 55). The request it would receive is an output of `ChatStream`. Its answer is the input `Reply`.
- React's asynchronous state batching and the stale `messages` closure. A turn is one sequential transition, which agrees with the source when no other event happens during the turn: no typing, attaching, New chat, picking a history entry, or use of the preview controls. Typing during a stream, for instance, leaves `input` non-empty at the end, where `App.HandleSendSettles` has it empty.
- Starting a new chat while a stream is running (App.tsx:129-132 during App.tsx:96-103). `setMessages([])` empties the list, so the next `onChunk` updater reads `parts` of a missing last message and throws. It throws inside React's state update, outside `handleSend`'s `try`, so no fallback message appears. The model has no interleaved events, and `App.ApplyIncrement` requires a last message.
- Overlapping turns. No mutual exclusion is claimed, because the Enter key bypasses the disabled button. In the source, a send during a running stream appends a new user message and placeholder (App.tsx:87, 94). From then on the running stream's `onChunk` updater (App.tsx:97-99) writes into the new placeholder, so the two streams overwrite each other's text. The first turn's `finally` (App.tsx:114) also lowers `isGenerating` while the second is still streaming. The model runs each turn to completion on its own.
- `Gemini.ChatStream`: requires a non-empty history. With an empty one the source would throw on `lastMessage.parts`, but `handleSend` always passes the new user message last.
- Strings are sequences of characters. UTF-16 surrogate pairs, which `slice(0, 30)` could split, are not modelled.
- The suggestion buttons that copy a fixed text into the input field (App.tsx:223). They only set `input`, which the model takes as given.
- The speech-recognition, theme, sidebar and DeepThink state (App.tsx:41, 42, 46, 48). No modelled transition reads it.
- There is no model selector. `setActiveModel` (App.tsx:39) is never called, so `activeModel` stays `MODELS.CODEMAX_PRO`, and every turn the app sends gets the "BETA Experimental" instruction. The model agrees: `App.InitialSession` starts with `CodemaxPro` and no transition changes `activeModel`. It is still a field, so the lemmas hold for any model id.
