# TogetherClient response decoder, in Dafny

This project models the chat-completion response decoder of `TogetherClient`
(a browser client for an OpenAI-compatible endpoint) and proves properties of
it. The decoder has three parts:

- **Framing** (`handleStreamResponse`): every decoded chunk is appended to a
  string buffer, the buffer is split on `"\n"`, every complete line is handed
  to `processLine` in order, and the last, possibly partial, piece stays in
  the buffer. When the reader reports `done`, a non-empty leftover is
  processed as a final line and `onDone` is called once.
- **Line parsing** (`processLine`): only lines starting with `data: ` matter;
  the rest of the line is trimmed with JavaScript's `trim`; the `[DONE]`
  sentinel is swallowed; anything else goes to `JSON.parse`, whose failures
  are caught and logged; `choices[0].delta.content` is dispatched to
  `onTextReceived` only when it is truthy, so never when it is empty.
- **`send`**: a non-OK status rejects before any callback; `body.stream`
  chooses the streaming path or `handleNormalResponse`, which dispatches
  `choices[0].message.content` once and then calls `onDone`.

A call of `send` is modelled as an `Outcome`: the sequence of callbacks
(`Text(content)` for `onTextReceived`, `Done` for `onDone`) and whether the
returned promise resolves or rejects (with a `Failure`). The response body is
a `Transport`: the chunks the reader delivers, already decoded to strings, and
how the reading ends (`Closed` when the reader reports `done`, `Broken` when
it throws). `JSON.parse` with the `choices?.[0]?.delta?.content` lookup is a
function parameter `string -> DeltaLookup` that tells a thrown parse error
(`Malformed`) from a missing value (`NoDelta`) and a content string
(`Delta(c)`). The non-streaming `json.choices[0].message.content` is a function
parameter `string -> Option<string>`.

`processLine` is modelled as the text it passes to `onTextReceived`, if any
(`Option<string>`). The read loop is stated for any such line handler
(`Stream.Dispatch`, `Stream.Loop`), and `handleStreamResponse` instantiates it
with `processLine` (`Stream.Handler`), so the framing results hold whatever a
line does and the line results are proved once, about `processLine` itself.

Modules, one per component: `Framing` (split, join, the per-chunk step `Feed`
and the framing of a chunk sequence `Frame`), `LineParser` (`trim` and
`processLine`), `Events` (callbacks and outcomes), `Stream` (the read loop),
`Client` (`send` and `handleNormalResponse`), and `Wrappers` (`Option`).

The main result is split invariance: the lines handed to `processLine`, and
so every callback, depend only on the concatenation of the chunks, not on
where the chunk boundaries fall (`Stream.SplitInvariant`,
`Client.SendSplitInvariant`). It follows from a direct description of the
loop: the lines processed are the `"\n"`-separated lines of the whole body
except the last, then the last one if the reader finished normally and it is
non-empty (`Stream.StreamMatchesSplit`).

What the code does and does not do:

- only lines that start with `data: ` are decoded; any other line is ignored
  (TogetherClient.js:66);
- `data: [DONE]` only returns from `processLine` (TogetherClient.js:69-71):
  the loop goes on reading, and `onDone` is called only when the reader
  reports `done` (`Stream.SentinelDoesNotStop`);
- a `data: ` line with a blank payload is not skipped before parsing: its
  trimmed payload `""` goes to `JSON.parse` (TogetherClient.js:67,74), which
  throws, and the error is logged, so no callback is made
  (`LineParser.BlankPayloadSilent`, given that the parser rejects `""`).

## Model

| member | source | states |
|---|---|---|
| Framing.Split | TogetherClient.js:52-53 | `buffer.split("\n")` always yields at least one piece, so `lines.pop()` always has a piece to keep as the new buffer |
| Framing.SplitSound | TogetherClient.js:52 | no piece of `split("\n")` contains a newline, and joining the pieces with `"\n"` gives back the text |
| Framing.SplitJoin | TogetherClient.js:52 | splitting undoes joining: newline-free pieces are recovered exactly, so the pieces are the only newline-free decomposition of the text |
| Framing.FeedSound | TogetherClient.js:51-53 | after a chunk, the new buffer is the text after the last newline of old buffer plus chunk and holds no newline; the released lines hold no newline and, rejoined with the new buffer, give back old buffer plus chunk |
| Framing.SplitAppend | TogetherClient.js:51-53 | the pieces of `x + y` are the complete lines of `x`, then the pieces of the pending line of `x` continued with `y` |
| Framing.FeedCompose | TogetherClient.js:51-53 | feeding `x` then `y` releases the lines of `x + y` fed at once, in the same order, and leaves the same buffer |
| Framing.FrameMatchesSplit | TogetherClient.js:38-58 | before end-of-stream, a chunk sequence releases exactly the complete lines of buffer plus the concatenated chunks, in order, and keeps the last piece |
| Framing.FrameSplitInvariant | TogetherClient.js:38-58 | two chunkings with the same concatenation release the same lines and leave the same buffer |
| LineParser.LeadingSpace | TogetherClient.js:67 | the leading white space `trim` removes: all of it is white space and the next character is not |
| LineParser.TrailingSpace | TogetherClient.js:67 | the trailing white space `trim` removes: all of it is white space and the character before is not |
| LineParser.TrimPadded | TogetherClient.js:67 | `trim` removes all white space around a text that neither starts nor ends with white space, and nothing else |
| LineParser.TrimIgnoresTrailingSpace | TogetherClient.js:67 | white space appended to a text, such as a carriage return, does not change its trim |
| LineParser.LabelledPayload | TogetherClient.js:66-67 | `data: ` followed by a payload without surrounding white space is a labelled line whose trimmed payload is exactly that payload |
| LineParser.ProcessLine | TogetherClient.js:65-82 | a line makes at most one callback, always `onTextReceived` with non-empty text, and only for a `data: ` line whose trimmed payload is not `[DONE]` and parses to that delta content |
| LineParser.DeltaDispatched | TogetherClient.js:74-77 | conversely, a `data: ` line whose trimmed payload is not `[DONE]` and parses to non-empty delta content dispatches exactly that content |
| LineParser.SentinelSilent | TogetherClient.js:66-71 | `data: [DONE]` with any white space around the sentinel makes no callback, whatever the JSON parser would say |
| LineParser.UnlabelledSilent | TogetherClient.js:66 | a line that does not start with `data: ` makes no callback |
| LineParser.MalformedSilent | TogetherClient.js:73-80 | a payload that fails to parse, has no delta content, or has empty content makes no callback and raises nothing |
| LineParser.BlankPayloadSilent | TogetherClient.js:66-80 | a `data: ` line whose payload is blank or white space only trims to `""`; when `JSON.parse("")` throws, as it does in JavaScript, the line makes no callback |
| LineParser.CarriageReturnIgnored | TogetherClient.js:66-67 | a trailing carriage return left by CRLF framing never changes what a line does |
| Stream.Dispatch | TogetherClient.js:55-57 | processing a list of lines makes at most one callback per line |
| Stream.DispatchNoDone | TogetherClient.js:55-57 | processing lines never calls `onDone` |
| Stream.DispatchAppend | TogetherClient.js:55-57 | processing two lists of lines one after the other makes the callbacks of processing the joined list |
| Stream.Flush | TogetherClient.js:44-46 | the leftover buffer is processed as one line exactly when it is non-empty, and as itself |
| Stream.FinishDone | TogetherClient.js:42-48 | when the reader is done, the callbacks end with exactly one `onDone`; when it throws, none are made |
| Stream.Loop | TogetherClient.js:38-62 | the read loop resolves exactly when the reader finishes normally, and otherwise rejects with the read error |
| Stream.LoopDone | TogetherClient.js:38-62 | the loop calls `onDone` once and last when the reader finishes normally, and never when it throws |
| Stream.HandleStream | TogetherClient.js:32-63 | `handleStreamResponse` resolves if and only if the reader reports `done`; otherwise the read error propagates |
| Stream.StreamDone | TogetherClient.js:32-63 | `onDone` is called, exactly once and as the last callback, if and only if the reader reports `done` |
| Stream.LoopMatchesFrame | TogetherClient.js:38-58 | the loop's callbacks are `processLine` over the lines the framing releases, then the end-of-stream callbacks on the leftover |
| Stream.StreamMatchesSplit | TogetherClient.js:38-58 | for any line handler, and so for `processLine`, the loop's callbacks from an empty buffer are the handler over the body's lines except the last, then the non-empty last line when the reader finished normally, then one `onDone` |
| Stream.SplitInvariant | TogetherClient.js:38-58 | two chunkings with the same concatenation, ending the same way, process the same lines and give the same outcome, whatever the line handler |
| Stream.HandlerTextsNonEmpty | TogetherClient.js:75-76 | every `onTextReceived` that `processLine` makes over a list of lines carries non-empty text |
| Stream.StreamTextsNonEmpty | TogetherClient.js:75-76 | no streamed `onTextReceived` carries empty text |
| Stream.SilentLineSkipped | TogetherClient.js:55-57 | a line that makes no callback (unlabelled, sentinel, malformed JSON, no content) is skipped and the following lines are still processed |
| Stream.BareSentinelSilent | TogetherClient.js:69-71 | the line `data: [DONE]` makes no callback |
| Stream.SentinelDoesNotStop | TogetherClient.js:69-71 | a `data: [DONE]` line in the middle of a body does not end the stream: later deltas are dispatched and `onDone` still comes once, last |
| Stream.DeltaThenSentinel | TogetherClient.js:38-76 | a delta line, a blank line and the sentinel, cut into chunks anywhere (even inside the JSON), give one `onTextReceived` with the delta's content, then `onDone` |
| Client.HandleNormal | TogetherClient.js:84-89 | a non-streaming body resolves with exactly one `onTextReceived` of the message content, empty or not, followed by `onDone`, or rejects with no callback |
| Client.Send | TogetherClient.js:11-30 | a non-OK status rejects before any callback; `send` resolves exactly when the status is OK, the body is read to the end and, without streaming, the message is found; `onDone` is called iff it resolves, once and last; without streaming there are exactly two callbacks |
| Client.SendSplitInvariant | TogetherClient.js:25-29 | in both modes, where the transport cuts the body never changes what `send` reports |

## Left out

- `fetch`, the request headers, the API key and the endpoint URL: the response is an input with `ok`, `status` and a body.
- `TextDecoder` with `{stream: true}`: chunks are already-decoded strings, so multi-byte characters split across chunks are not modelled.
- `JSON.parse` and the optional-chaining lookups: they are function parameters.
- LineParser.ProcessLine: delta content is modelled as a string. A truthy non-string value (a number, an object) would be dispatched as it is; a value that is not a string is folded into `NoDelta` or `Malformed` here.
- Client.HandleNormal: message content is modelled as a string. A missing or `null` content would be dispatched as `undefined` or `null`; here it is folded into the rejecting `None`.
- Callbacks are assumed not to throw. In the code, an exception from `onTextReceived` inside `processLine` would be caught and logged by its `try`, and one from `onDone` would be rethrown by the loop's `catch`.
- The async suspension points and `console.error` logging: only the order of callbacks and the final resolve or reject are modelled.
- A reader that never reports `done` nor throws: the transport always delivers finitely many chunks.
- The request body is opaque except for its `stream` flag, modelled as a boolean; the default no-op callbacks of `send` are not modelled.
- `script.js` (page wiring, settings, key retrieval, rendering) is not part of this model.
