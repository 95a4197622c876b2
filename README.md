# SimpleAIchat core, modelled in Dafny

SimpleAIchat is a browser chat client for OpenAI-compatible chat-completion
endpoints. This project models the logic it uses to hold a conversation:

- `Api` (`api.dfy`) models the transport, `sendMessage`:
  - it formats the messages and builds the request;
  - on a failed response it builds the error message;
  - it rewrites an abort;
  - it decodes a streamed server-sent-events body into the deltas handed to the stream callback, plus their concatenation;
  - `SendMessage` is the call as written; `SendMessageBuffered` is the same call with the corrected decoder of the finding below.
- `Chat` (`chat.dfy`) models the chat screen's controller, `handleSubmit`, as a class over the screen's state:
  - the guards;
  - the user message and the empty assistant placeholder;
  - the per-chunk update of the placeholder;
  - removing the placeholder when the request fails;
  - the `finally` reset.
- `MessageView` (`message_view.dfy`) models three pieces of the message component:
  - the effect that keeps the displayed text in step with a streaming reply;
  - the trailing-newline strip of code blocks;
  - the colours of the language badge.
- `History` (`history.dfy`) models the conversation-history store.
- `Settings` (`settings.dfy`) models the settings store: loading, merging partial updates, saving, and the panel toggle.
- `Types` and `Text` hold what the modules share:
  - the message and settings records;
  - `Option` and `Result`;
  - models of `split` and `join` on one character, with their round trips;
  - JavaScript `trim` and the blank test derived from it;
  - decimal rendering of a number.

The outside world enters as parameters:

- A network exchange is one value of `Api.Exchange`. It records what `fetch` and the body reads produced.
- `JSON.parse` of an event payload is a function parameter, `parse: string -> Payload`.
- Fresh identifiers and timestamps are arguments of `HandleSubmit`.
- The browser's saved settings are the field `Settings.SettingsStore.stored`.
- Each call of the stream callback is one entry of the `emitted` trace, in order.

The code and the system's specification disagree in places. The model follows the code:

- API-key check:
  - The specification rejects a request unless all three settings are non-empty.
  - The code checks only `apiKey`, and it does so in the controller, not in the transport.
  - An empty base URL or model is sent as it is.
- Submitting during a request:
  - The specification has a new submission cancel the one in flight.
  - The code ignores a submission while `isLoading` is set.
  - The `finally` clause clears the controller reference, so a non-null reference at the abort branch is always a request still in flight. Only a second submission that passed the `isLoading` guard through a stale closure could reach it, and such a submission is not modelled. In the model the branch is therefore dead, though it is kept as written.
- A cancelled request:
  - The specification discards a cancelled request silently.
  - In the code, the abort reaches the controller's `catch` as the error "Request was cancelled".
  - That error is shown and the placeholder removed, like any other failure.
- Late deltas:
  - The specification promises that no delta applies after a cancellation.
  - The code does not check for this: every delta the decoder produced reaches the placeholder.

## Model

| member | source | states |
|---|---|---|
| Api.FormatMessages | src/utils/api.ts:10-13 | one wire message per message, in order, carrying exactly its role and content |
| Api.FormatIgnoresIdAndTimestamp | src/utils/api.ts:10-13 | two message lists that agree on roles and contents format identically; ids and timestamps never reach the wire |
| Api.BuildRequest | src/utils/api.ts:15-27 | the request goes to the configured base URL with the configured model and the formatted messages, and asks for streaming exactly when a stream callback is given |
| Api.RemoteErrorMessage | src/utils/api.ts:29-35 | a truthy `error.message` from the body wins: a non-empty string as it is, any other truthy value in its string form; a falsy or absent one gives the fixed prefix followed by the status; unless the body's message is a non-string value, the message is never empty |
| Api.FallbackNamesStatus | src/utils/api.ts:33 | the fallback message starts with "API request failed with status " and the digits after it read back as the status |
| Api.MapAbort | src/utils/api.ts:71-76 | an AbortError becomes an Error "Request was cancelled"; every other thrown value is rethrown unchanged; the result is never an AbortError |
| Api.LineText | src/utils/api.ts:50-61 | a line causes a callback only if it starts with "data: " and its payload is not "[DONE]" |
| Api.LineTextSpec | src/utils/api.ts:49-61 | a line yields a callback text exactly when it starts with "data: ", its payload is not "[DONE]" and the payload parses; the text is the delta content, or "" when the delta has none |
| Api.LinesTextsAppend | src/utils/api.ts:49-63 | the texts of a list of lines are the texts of its parts, in order |
| Api.SkippedLineContributesNothing | src/utils/api.ts:50-61 | a non-data line, the "[DONE]" line or an unparsable payload adds nothing to the callback trace, wherever it sits |
| Api.ReadsTextsAppend | src/utils/api.ts:42-64 | each read is decoded on its own: the texts of two runs of reads are the texts of each run, in order |
| Api.DecodeLine | src/utils/api.ts:50-61 | the branches of the loop body hand the callback exactly the text LineText gives for the line, if any |
| Api.DecodeLines | src/utils/api.ts:49-63 | the loop over the lines of a read emits the texts of its lines in order, and the content it adds is their concatenation |
| Api.DecodeStream | src/utils/api.ts:37-66 | the loop as written: the callback trace is each read split on '\n' and decoded by itself, and the content returned is the concatenation of that trace |
| Api.DecodeStreamBuffered | src/utils/api.ts:37-66 | the corrected loop: the callback trace is the decoded complete lines of the whole body so far, plus the last partial line once the body is complete; the content returned is their concatenation |
| Api.LineAlignedChunksAgree | src/utils/api.ts:42-64 | when every read but the last ends on a line break, the loop as written and the corrected loop emit the same trace |
| Api.AsWrittenLosesSplitLine | src/utils/api.ts:46-61 | the event "data: {}" arriving as the two reads "data: {" and "}\n" yields no callback at all in the loop as written |
| Api.BufferedKeepsSplitLine | src/utils/api.ts:46-61 | the same two reads yield the event's delta through the corrected loop |
| Api.Outcome | src/utils/api.ts:29-76 | what one call settles to: only an ok response that streamed to its end, or whose JSON body was read, succeeds; a streamed success is the concatenation of the callbacks, a JSON one the message content; a failed fetch or read is passed through the abort mapping; a non-ok response throws an Error with the remote message; a failure is never an AbortError |
| Api.SendMessage | src/utils/api.ts:3-77 | the call as written: the request is built from the messages and settings; the callbacks are exactly the reads received before the body ended or a read failed, each split and decoded by itself, and none without an ok response and a callback; the result is the Outcome of the exchange and those callbacks |
| Api.SendMessageBuffered | src/utils/api.ts:3-77 | the call with the corrected decoder: the same request and Outcome, with the callbacks of the complete lines of the whole body, and of its last partial line once the body has ended |
| Text.JoinSplit | src/utils/api.ts:47 | `split('\n')` loses nothing: joining the pieces with the separator gives the chunk back |
| Text.SplitJoin | src/utils/api.ts:47 | pieces free of the separator, joined and split again, come back unchanged |
| Text.SplitAppend | src/utils/api.ts:46-47 | splitting a concatenation is splitting the first part, with its last piece glued to the start of the second |
| Text.TrimEmptyIffBlank | src/components/ChatInterface.tsx:37 | `input.trim()` is empty exactly when every character of the input is JavaScript white space or a line terminator |
| Text.NatToStringValue | src/utils/api.ts:33 | the decimal rendering of a status reads back as that status |
| Chat.AppendChunk | src/components/ChatInterface.tsx:81-87 | one callback appends the chunk to the content of the message with the placeholder's id, and leaves every other message and the order unchanged |
| Chat.StreamFillsPlaceholder | src/components/ChatInterface.tsx:80-89 | after all callbacks, the placeholder holds its old content followed by the concatenated chunks; the earlier messages and the user message are untouched |
| Chat.RemoveById | src/components/ChatInterface.tsx:93 | the cleanup never lengthens the conversation; which messages it keeps is stated by the two lemmas below |
| Chat.RemoveByIdClears | src/components/ChatInterface.tsx:93 | after the failure cleanup no message carries the placeholder's id |
| Chat.RemoveByIdMembers | src/components/ChatInterface.tsx:93 | the cleanup keeps exactly the messages of other ids |
| Chat.RemoveUniqueId | src/components/ChatInterface.tsx:93 | when one message carries the id, the cleanup removes that message and keeps the others in order |
| Chat.FailureRemovesPlaceholder | src/components/ChatInterface.tsx:91-93 | on failure the conversation is the earlier messages plus the user message, whatever the placeholder had received |
| Chat.ErrorText | src/components/ChatInterface.tsx:92 | the error shown is an Error's message, or "An unknown error occurred" for any other thrown value |
| Chat.AbortController.constructor | src/components/ChatInterface.tsx:73 | a new controller has not been aborted |
| Chat.AbortController.Abort | src/components/ChatInterface.tsx:69-71 | after `abort()` the controller is aborted |
| Chat.ChatInterface.constructor | src/components/ChatInterface.tsx:11-17 | the screen starts with no messages, an empty input, nothing loading, no error, no streaming message and no controller |
| Chat.ChatInterface.SetInput | src/components/ChatInterface.tsx:170-171 | typing replaces the input and changes nothing else |
| Chat.ChatInterface.BeginSubmit | src/components/ChatInterface.tsx:36-73 | a blank input or a pending request leaves the state alone; a missing key only sets the key error; otherwise the user message and an empty placeholder are appended, the input and error are cleared, loading and streaming start, a live controller is aborted and a fresh one installed; the request is sent exactly in that last case |
| Chat.ChatInterface.ReceiveChunk | src/components/ChatInterface.tsx:80-89 | one stream callback: the messages become the chunk applied to the placeholder, and nothing else changes |
| Chat.ChatInterface.ApplyChunks | src/components/ChatInterface.tsx:80-89 | the stream callbacks, in order: the messages become all chunks applied to the placeholder, and nothing else changes |
| Chat.ChatInterface.Settle | src/components/ChatInterface.tsx:91-98 | on failure the error text is shown and the placeholder removed; in every case loading and streaming stop and the controller is dropped |
| Chat.ChatInterface.HandleSubmit | src/components/ChatInterface.tsx:35-99 | the whole submission. An ignored or key-less submit leaves the messages, input, loading state, streaming mark and controller alone. A sent one requests the earlier messages plus the user message through the source's `sendMessage`. It completes exactly when the response is ok and its body was read to the end; then the content is the concatenation of the per-read callbacks, the conversation ends with the user message and a reply holding that content, and no error is shown. Otherwise it fails with the error `sendMessage` throws for the exchange, the conversation ends with the user message, and that error's text is shown. Afterwards nothing is loading or streaming and no controller is held |
| Chat.InvalidKeyShown | src/components/ChatInterface.tsx:91-93 | a 401 response whose body's `error.message` is "invalid key" shows exactly "invalid key" and leaves only the user's message |
| MessageView.NextDisplayed | src/components/Message.tsx:21-33 | a non-streaming or user message shows its content; a streaming reply keeps the text it shows as a prefix, shows the content once the shown text is a prefix of it, and stays put while the content is no longer than the shown text |
| MessageView.EffectIdempotent | src/components/Message.tsx:21-33 | running the effect again on the same content changes nothing |
| MessageView.ReplayTracksGrowingContent | src/components/Message.tsx:21-33 | while a streaming reply's content only grows, the displayed text equals the latest content after every run |
| MessageView.MessageView.constructor | src/components/Message.tsx:16-17 | a new component shows nothing and its content reference holds the message's content |
| MessageView.MessageView.RunEffect | src/components/Message.tsx:21-33 | the component's state after one run of the effect is the displayed text given by NextDisplayed, and the content reference holds the content |
| MessageView.CodeContent | src/components/Message.tsx:96 | exactly one trailing line break is removed when present, and the code is otherwise unchanged |
| MessageView.CodeContentStripsOnce | src/components/Message.tsx:96 | for every code text, a block ending in two line breaks keeps exactly one of them |
| MessageView.LanguageBadge | src/components/Message.tsx:102-107 | the badge is blue exactly for typescript, yellow exactly for javascript, green exactly for python, and gray for every other language |
| MessageView.BadgeClass | src/components/Message.tsx:102-106 | each badge colour's class has the form `bg-<colour>-500` |
| MessageView.BadgeClassDistinct | src/components/Message.tsx:102-106 | two colours have the same class exactly when they are the same colour |
| History.FilterFromSpec | src/context/ChatHistoryContext.tsx:28-30 | filtering by position from a starting point drops the element at the index when it lies in range, and nothing otherwise |
| History.DeleteAtSpec | src/context/ChatHistoryContext.tsx:28-30 | deleting at a valid index removes exactly that conversation and shifts the later ones down by one; any other index changes nothing |
| History.ChatHistory.constructor | src/context/ChatHistoryContext.tsx:16-17 | the store starts with no conversations and an empty current conversation |
| History.ChatHistory.SetCurrentConversation | src/context/ChatHistoryContext.tsx:17 | sets the current conversation and leaves the list alone |
| History.ChatHistory.AddConversation | src/context/ChatHistoryContext.tsx:19-21 | appends the conversation at the end and leaves the current one alone |
| History.ChatHistory.ClearHistory | src/context/ChatHistoryContext.tsx:23-26 | empties both the list and the current conversation |
| History.ChatHistory.DeleteConversation | src/context/ChatHistoryContext.tsx:28-30 | removes the conversation at a valid index and keeps the others in order; any other index leaves the list unchanged; the current conversation is untouched |
| Settings.Merge | src/context/SettingsContext.tsx:24-26 | each field present in the patch replaces the old value; each absent field keeps it |
| Settings.MergeExtremes | src/context/SettingsContext.tsx:24-26 | an empty patch changes nothing, and a complete record replaces everything |
| Settings.MergeCompose | src/context/SettingsContext.tsx:24-26 | two updates in a row equal one update by the second patch laid over the first, and repeating a patch changes nothing more |
| Settings.InitialSettings | src/context/SettingsContext.tsx:4-8 | start-up uses the saved settings when there are any, and otherwise the default endpoint, an empty key and gpt-3.5-turbo |
| Settings.SettingsStore.constructor | src/context/SettingsContext.tsx:13-22 | the store starts with the initial settings and the panel closed, and the first effect run saves those settings |
| Settings.SettingsStore.UpdateSettings | src/context/SettingsContext.tsx:20-26 | the settings become the merge of the old ones with the patch and are saved; the panel state is unchanged |
| Settings.SettingsStore.ToggleSettings | src/context/SettingsContext.tsx:28-30 | flips whether the panel is open and changes nothing else |
| Settings.ReloadAfterUpdate | src/context/SettingsContext.tsx:13-30 | settings saved after an update come back unchanged when a new store starts from the saved copy, and toggling the panel twice leaves it closed |

## Findings

| source | as written | input that shows it | evidently intended | confidence | as-written member | corrected member |
|---|---|---|---|---|---|---|
| src/utils/api.ts:42-64 | each read is split on '\n' and decoded by itself; no partial line is carried to the next read | the event `data: {...}` delivered as two reads, "data: {" and "}\n"; the first half fails to parse and the second does not start with "data: ", so the delta is lost | carry the unterminated tail of each read into the next and decode it once its line is complete, or once the body ends | medium, not executed | Api.DecodeStream, Api.AsWrittenLosesSplitLine | Api.DecodeStreamBuffered, Api.BufferedKeepsSplitLine |

`Api.SendMessage`, and through it `Chat.ChatInterface.HandleSubmit`, keeps the
decoder as written, so that the call is modelled as the code behaves.
`Api.SendMessageBuffered` is the same call with the corrected decoder
`DecodeStreamBuffered`. `Api.LineAlignedChunksAgree` shows the two decoders
agree whenever every read but the last ends on a line break.

## Left out

- Api.SendMessage: does not model the HTTP headers, the `Authorization` bearer token, the `POST` method or the JSON encoding of the body. The request is the value `Request(url, model, messages, stream)`.
- Api.SendMessage: `fetch`, reading the body and `TextDecoder` are not modelled. What the network produced enters as an `Exchange`, with the body already decoded into string chunks.
- A response with no body ends the stream at once in the source. Here it is an exchange with no chunks.
- The `AbortSignal` is not passed along. An abort shows up only as the AbortError that a fetch or a read throws.
- Api.RemoteErrorMessage: the body's `error.message` enters as a `BodyMessage`, already classified. A body that is not JSON, or that has no `error` or no `message`, is `NoMessage`. Any other non-string value enters with its truthiness and its string form, and JSON values themselves are not modelled. A `null` body, which makes the source throw a TypeError, is not modelled.
- Api.LineText: `JSON.parse` and the access `choices[0]?.delta?.content` are the parameter `parse`. It says whether a payload parses and which delta it carries. A payload whose `choices` is missing throws inside the `try`, so it counts as unparsable, which is how the source treats it. A delta that is a non-string value is not modelled.
- Api.SendMessage: an exception thrown by the stream callback itself would be caught as a parse error. The callback here cannot throw.
- Api.SendMessage: the non-streaming branch's `choices[0].message.content` enters as the exchange's `json` result.
- The `console.error` logging is not modelled.
- Chat.ChatInterface.HandleSubmit: the request and its callbacks run after the synchronous part of the submission, not interleaved with re-renders. Events that happen while a request is in flight are not modelled: typing, a second submit, unmounting. The same goes for React's batching of state updates. For the messages list this ordering is equivalent, because every callback updates the latest list.
- Chat.ChatInterface.HandleSubmit: `uuidv4()` and `Date.now()` are arguments. The `requires` that the assistant id is fresh and distinct from the user id stands for the uniqueness of generated uuids.
- Chat.ChatInterface.BeginSubmit: the text area's height reset, the scroll into view and `preventDefault` are not modelled. They affect only the DOM.
- Chat.AbortController: only whether `abort()` was called is kept. The signal it raises is not modelled.
- MessageView.NextDisplayed: JavaScript's `length` and `slice` count UTF-16 code units, while the model counts characters. The two agree when every character lies in the Basic Multilingual Plane. They also agree when the displayed text is a prefix of the content, since both then append the rest of the content. When the displayed text is not a prefix and the content holds astral characters, the source can append part of a surrogate pair. That case is not modelled, so MessageView.MessageView.RunEffect inherits the same gap.
- Rendering is not modelled: the JSX of the three components, the text area's height, copying to the clipboard with its timers, the random code-block ids and the Markdown renderer.
- MessageView.LanguageBadge: which language a code block names is not modelled. A `language-(\w+)` regular expression extracts it from the class name. The badge function takes the extracted name as input.
- Settings.InitialSettings: the saved value enters as the already-parsed option. An empty saved string falls back to the default, like a missing one. A saved value that is not valid JSON throws during start-up, and that is not modelled.
- Settings.Merge: a patch field given explicitly as `undefined` overwrites the old value in the source. A field is either present with a string or absent here, and that case is not modelled.
- History.ChatHistory.DeleteConversation: the index is an integer. A fractional or NaN index also matches no position and so changes nothing, and that is not modelled separately.
- The header, settings panel, history list, app shell, styling configuration and theme store are not part of this model. They only render state or forward events to the operations above.
