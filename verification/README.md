# Ollama streaming chat client, modelled in Dafny

This project models the C chat client in `libs/chatbot/wrappers/c/chat_client.c`
and the contracts its header `chat_client.h` documents. The client sends the
conversation history to an Ollama server and reads back newline-delimited JSON
events. It turns each event's `message.content` into a token, and it keeps the
history, the full response and a token buffer for polling in a shared context.

The model is functional. Every locked section of the C code becomes one pure
transition on an immutable `Context` record. The worker thread's handling of a
request is a single function. It returns the context it leaves behind and a
log of what happened, in order: each locked update and each callback call.

| file | module | what it models |
|---|---|---|
| `common.dfy` | `Common` | `Option` (NULL), in-order string concatenation |
| `line_reader.dfy` | `LineReader` | `read_line`, byte at a time over the remaining socket bytes |
| `stream_parser.dfy` | `StreamParser` | `parse_token_from_json`, the line filter, the header loop and the body loop of `stream_response`; a line-level reference reading of the parser |
| `example_data.dfy`, `parser_examples.dfy` | `ExampleData`, `ParserExamples` | concrete responses: a chunk-size line, a header block, a two-event stream |
| `response.dfy` | `Response` | `append_to_response` and its capacity growth |
| `token_queue.dfy` | `TokenQueue` | `buffer_token` and the drain in `chat_poll_tokens` |
| `history.dfy` | `History` | `add_message` and the bounds check of `chat_get_message` |
| `chat_context.dfy` | `ChatContext` | the context record and the public calls `chat_context_new`, `chat_send_async`, `chat_poll_tokens`, `chat_clear`, `chat_get_message`, `chat_add_message`, `chat_set_timeout` and the getters |
| `worker.dfy` | `Worker` | one request of `worker_loop` on each network outcome; `chat_send_blocking` |
| `worker_properties.dfy` | `WorkerProperties` | properties that span a whole request: replaying the log, what the callbacks see, how a request ends, public-interface scenarios |

Modelling decisions:

- **Network.** A `NetOutcome` stands in for the network: building the request fails, connecting fails, sending fails, or the response bytes are delivered.
- **Socket bytes.** The bytes the socket delivers before it closes or fails are a `string`, and the end of that string is the end of the response. Receive timeouts are taken not to occur while more bytes are still to come; see `## Left out` for what a timeout does in the code.
- **JSON decoding.** cJSON is a `Decoder` parameter. It maps a line to the `done` and `message` members of the decoded object, or to `None` when the line does not parse.
- **Callbacks.** Each callback is a flag saying whether the caller registered it. A call to a callback is a log event.
- **C strings.** The model keeps NUL bytes that arrive from the socket. `CStr` is what `strlen` and `strdup` see: the prefix before the first NUL.
  - The header loop uses the length `read_line` returns and then `strlen`. A line that starts with a NUL byte therefore ends the header block.
  - The body filter and the decoder see the line through `strlen`.
  - A token is its content up to the first NUL.
- **Where code and documentation differ, the model follows the code.**
  - `read_line` returns -1 only when the input runs out and every byte it consumed was a carriage return (`LineReader.ReadLineFrom`). Carriage returns are consumed without being stored, so "before any byte is read" is not quite the rule. With `max_len` of 1 it returns 0 and reads nothing.
  - When no token arrives, the response buffer stays NULL after `chat_send_async` reset it. `chat_send_blocking` then returns NULL, exactly as it does after an error, although the header promises NULL only on error (`Worker.SendBlocking`, `Worker.FreshRequestOutcome`).
  - A line longer than 8191 bytes is split by `read_line` (`LineReader.ReadFullBufferFrom`). Each piece is then filtered and decoded as a line of its own. Whether the first piece, which is not a complete JSON object, decodes is up to the JSON library (the `Decoder` here). The second piece is decoded only if it happens to start with `{`. So an event that long usually loses its token, but nothing in the model promises that it does.

## Model

| member | source | states |
|---|---|---|
| LineReader.ReadLineFrom | libs/chatbot/wrappers/c/chat_client.c:193-211 | -1 exactly when nothing is stored, there is room for a byte, and the input runs out after only carriage returns; a stored line has no CR or LF, fits in max_len-1 bytes, and what is left unread is a suffix of the input |
| LineReader.ReadLine | libs/chatbot/wrappers/c/chat_client.c:193-211 | a line has no line breaks and at most max_len-1 bytes; with room for a byte every line read consumes input |
| LineReader.ReadLineStores | libs/chatbot/wrappers/c/chat_client.c:197-209 | the stored line is the consumed bytes before the first LF with every CR dropped; a read that consumed no LF stopped at end of input or with a full buffer |
| LineReader.ReadTerminatedLineFrom | libs/chatbot/wrappers/c/chat_client.c:197-210 | a line followed by LF reads back without its CRs, and the next read starts right after the LF |
| LineReader.ReadFullBufferFrom | libs/chatbot/wrappers/c/chat_client.c:197-207 | a run of ordinary bytes that fills the buffer comes back as one line, and the next byte is left unread: long lines are split at max_len-1 |
| LineReader.Lines | libs/chatbot/wrappers/c/chat_client.c:278-286 | every line the 8192-byte buffer yields has no line breaks and is shorter than the buffer |
| LineReader.LinesOfFrame | libs/chatbot/wrappers/c/chat_client.c:193-211 | round trip: reading newline-framed lines back gives exactly those lines, when they hold no line breaks and fit the buffer |
| StreamParser.ParseToken | libs/chatbot/wrappers/c/chat_client.c:246-274 | `done` exactly when the top-level `done` is true, whether or not `message` is present; a token exactly when `message.content` is a string that is non-empty as a C string, and then that string up to its first NUL |
| StreamParser.Classify | libs/chatbot/wrappers/c/chat_client.c:288-302 | an empty line is skipped; a line is a chunk size exactly when it is all hex and shorter than 8; a line is decoded exactly when it starts with `{`, so the hex skip never hides an event |
| StreamParser.CStr | libs/chatbot/wrappers/c/chat_client.c:288-316 | what `strlen` and `strdup` see: a NUL-free prefix of the bytes, ending just before the first NUL when there is one |
| StreamParser.SkipHeaders | libs/chatbot/wrappers/c/chat_client.c:280-283 | the header loop never leaves more than it was given; which lines it consumes is stated by SkipHeadersLines |
| StreamParser.StreamResponse | libs/chatbot/wrappers/c/chat_client.c:277-324 | every token of a response is non-empty; which tokens come out is stated by StreamResponseLines |
| StreamParser.StreamBody | libs/chatbot/wrappers/c/chat_client.c:286-323 | every emitted token is non-empty and every line handed to the decoder starts with `{` |
| StreamParser.SkipHeadersSuffix | libs/chatbot/wrappers/c/chat_client.c:280-283 | the header loop only consumes: the body it leaves is a suffix of the response |
| StreamParser.SkipHeadersLines | libs/chatbot/wrappers/c/chat_client.c:280-283 | the lines after the header loop are exactly the lines after the first line that is empty as a C string |
| StreamParser.StreamBodyLines | libs/chatbot/wrappers/c/chat_client.c:285-323 | the body loop emits the tokens of its lines, in order, up to and including the first `done` event, and stops on `done` exactly when there is such a line |
| StreamParser.StreamResponseLines | libs/chatbot/wrappers/c/chat_client.c:277-324 | `stream_response` yields the tokens of the post-header lines up to and including the first `done` event, in order |
| ParserExamples.ReadPlainLine | libs/chatbot/wrappers/c/chat_client.c:193-211 | a line without CR, LF or NUL followed by LF reads back as itself, and C string functions see it whole |
| ParserExamples.ChunkSizeLineSkipped | libs/chatbot/wrappers/c/chat_client.c:290-299 | a short all-hex line yields no token and leaves the rest of the body to be read as if it were absent |
| ParserExamples.HexSizeLineSkipped | libs/chatbot/wrappers/c/chat_client.c:290-299 | the chunk-size line `1a3` is skipped |
| ParserExamples.EventLineFirst | libs/chatbot/wrappers/c/chat_client.c:302-322 | an event line is decoded before the rest of the body; its token comes first, and the loop stops after it when it says `done` |
| ParserExamples.ReadCRLFLine | libs/chatbot/wrappers/c/chat_client.c:203-206 | a line ended by CR LF reads back without either |
| ParserExamples.HeaderBlockSkipped | libs/chatbot/wrappers/c/chat_client.c:280-283 | a status line and the blank line after it are consumed as the header block |
| ParserExamples.TwoEventBody | libs/chatbot/wrappers/c/chat_client.c:302-322 | a not-done event and a done event yield exactly their two contents and stop on the second |
| ParserExamples.TwoEventResponse | libs/chatbot/wrappers/c/chat_client.c:277-324 | a status line, a blank line and those two events yield the two contents |
| ExampleData.ExampleResponseTokens | libs/chatbot/wrappers/c/chat_client.c:277-324 | a concrete response yields the tokens `Hi` and `!`, which make up `Hi!` |
| Response.Grow | libs/chatbot/wrappers/c/chat_client.c:100-104 | capacity never shrinks, always fits the text and its NUL, and is unchanged when there is room |
| Response.Append | libs/chatbot/wrappers/c/chat_client.c:95-119 | the response becomes the old response followed by the text, its length grows by the text's length, and it stays below capacity |
| TokenQueue.Push | libs/chatbot/wrappers/c/chat_client.c:122-140 | the token joins the tail, the count grows by one, and earlier tokens are unchanged |
| TokenQueue.PushAllAppends | libs/chatbot/wrappers/c/chat_client.c:122-140 | tokens buffered one after another sit at the tail in arrival order |
| TokenQueue.Drain | libs/chatbot/wrappers/c/chat_client.c:573-616 | every buffered token in FIFO order, with their number, leaving the buffer empty; NULL and 0 when nothing is buffered |
| TokenQueue.DrainPushed | libs/chatbot/wrappers/c/chat_client.h:83-95 | a poll after tokens were buffered into an empty buffer returns exactly those tokens, in order, with their count |
| TokenQueue.DrainTwice | libs/chatbot/wrappers/c/chat_client.c:578-582 | a poll straight after a poll finds nothing |
| History.Append | libs/chatbot/wrappers/c/chat_client.c:71-92 | exactly one (role, content) pair joins the end; earlier entries are unchanged |
| History.Get | libs/chatbot/wrappers/c/chat_client.c:678-684 | a message exactly for indices 0 to count-1, and then the message at that index |
| History.GetAfterAppend | libs/chatbot/wrappers/c/chat_client.c:71-92 | after an append the new last index holds the new pair and every other index reads as before |
| ChatContext.NewContext | libs/chatbot/wrappers/c/chat_client.c:435-454 | a missing host or model and a non-positive port take their defaults, the timeout is 60, no request is in flight, and the result satisfies the context invariant |
| ChatContext.SetTimeout | libs/chatbot/wrappers/c/chat_client.c:695-701 | a positive value is stored and anything else becomes 60; nothing else changes and the invariant is kept |
| ChatContext.SendAsync | libs/chatbot/wrappers/c/chat_client.c:498-548 | -1 exactly when a request is in flight, and then nothing changes; otherwise 0, in flight, response, error and token buffer cleared, callbacks stored, message pending, history and configuration kept |
| ChatContext.SecondSendRejected | libs/chatbot/wrappers/c/chat_client.h:60 | a second request while the first is pending is rejected and the first request's message stays pending |
| ChatContext.Clear | libs/chatbot/wrappers/c/chat_client.c:648-660 | the history becomes empty; configuration and request state are untouched |
| ChatContext.ClearKeepsConfig | libs/chatbot/wrappers/c/chat_client.h:120-124 | after clearing, the configuration is kept, the count is 0 and every lookup fails |
| ChatContext.GetMessage | libs/chatbot/wrappers/c/chat_client.c:672-688 | 0 exactly for an index from 0 to count-1, and then that message; -1 and nothing otherwise |
| ChatContext.AddMessage | libs/chatbot/wrappers/c/chat_client.c:690-693 | exactly one message joins the history and nothing else changes |
| ChatContext.PollTokens | libs/chatbot/wrappers/c/chat_client.c:573-616 | the buffered tokens in FIFO order with their number, NULL exactly when none; the buffer is left empty and nothing else changes |
| ChatContext.PollTwice | libs/chatbot/wrappers/c/chat_client.h:83-95 | a second poll with no new tokens yields NULL and 0 and changes nothing |
| Worker.EmitToken | libs/chatbot/wrappers/c/chat_client.c:306-319 | a token is appended to the response, then buffered, then passed to `on_token` if registered, and nothing else changes |
| Worker.EmitTokens | libs/chatbot/wrappers/c/chat_client.c:306-319 | handling a response's tokens keeps the response buffer well-formed; what it does to the buffer, the response and the log is stated by the three lemmas below |
| Worker.EmitTokensBuffer | libs/chatbot/wrappers/c/chat_client.c:306-319 | handling the tokens grows the token buffer by exactly those tokens and touches nothing but the buffer and the response |
| Worker.EmitTokensText | libs/chatbot/wrappers/c/chat_client.c:306-319 | the response text grows by the concatenation of the tokens; the response exists afterwards exactly when it existed before or a token arrived |
| Worker.EmitTokensLog | libs/chatbot/wrappers/c/chat_client.c:306-319 | the log grows by each token's three steps, token by token, in stream order |
| Worker.Fail | libs/chatbot/wrappers/c/chat_client.c:354-365 | a failure sets the error and `is_done`, then calls `on_error` if registered |
| Worker.Complete | libs/chatbot/wrappers/c/chat_client.c:412-425 | an assistant message holding the response is appended exactly when the response is non-empty, then `is_done` is set, then `on_done` gets the response if registered |
| Worker.Deliver | libs/chatbot/wrappers/c/chat_client.c:405-425 | the streaming path: tokens in order, then the completion, with the response grown by their concatenation |
| Worker.ServeRequest | libs/chatbot/wrappers/c/chat_client.c:343-427 | the user message is appended first. On each failure the error is that path's message, the response and tokens are untouched, and the log ends with the finish and then `on_error` if registered. On delivery the history gets the assistant message exactly when the response is non-empty. Every path ends done and keeps the configuration |
| Worker.FreshRequestOutcome | libs/chatbot/wrappers/c/chat_client.c:412-418 | after a reset, the response exists exactly when a token arrived and is then the tokens' concatenation; the history grows by 2 in that case and by 1 otherwise |
| Worker.Step | libs/chatbot/wrappers/c/chat_client.c:330-346 | the worker waits exactly when nothing is pending; a served request clears the slot, ends done, extends the history, and keeps the invariant |
| Worker.SendBlockingLeaves | libs/chatbot/wrappers/c/chat_client.c:550-571 | the context a blocking call leaves is the one the worker leaves after the request: configuration kept, only `on_token` registered, the failed path's error message or none, the response's tokens still buffered for polling, and the stored response equal to the returned one |
| Worker.SendBlocking | libs/chatbot/wrappers/c/chat_client.c:550-571 | a busy context gives NULL and no change. Otherwise the result is non-NULL exactly when the response was delivered with a token, and is then the tokens' concatenation. The history grows by the user message, then by an assistant message holding the returned answer exactly when one is returned. The log is that of the request served with only `on_token` registered |
| WorkerProperties.ServeRequestReplays | libs/chatbot/wrappers/c/chat_client.c:343-427 | applying the logged updates, in order, to the starting context gives the final context: the log accounts for every change |
| WorkerProperties.BlockingAnswerHistory | libs/chatbot/wrappers/c/chat_client.c:550-571 | an answered blocking request appends exactly its user message and then an assistant message holding the returned answer |
| WorkerProperties.StreamCallbackTokens | libs/chatbot/wrappers/c/chat_client.c:313-316 | `on_token` sees each streamed token once, in stream order, when registered, and nothing otherwise |
| WorkerProperties.DeliveredCallbackTokens | libs/chatbot/wrappers/c/chat_client.c:306-316 | over a whole delivered request, a registered `on_token` receives exactly the parsed tokens in order; an unregistered one receives nothing |
| WorkerProperties.FailedCallbackTokens | libs/chatbot/wrappers/c/chat_client.c:354-403 | a request that fails to build, connect or send calls `on_token` for nothing |
| WorkerProperties.BlockingCallbackTokens | libs/chatbot/wrappers/c/chat_client.h:69-81 | during `chat_send_blocking`, the given `on_token` receives exactly the parsed tokens of the delivered response, in order, and nothing after a failure or when none was given |
| WorkerProperties.TokensConcatenateToResponse | libs/chatbot/wrappers/c/chat_client.c:306-316 | the tokens `on_token` receives, concatenated, equal the final response |
| WorkerProperties.DeliveredEnd | libs/chatbot/wrappers/c/chat_client.c:419-425 | a delivered request finishes exactly once, and after that only `on_done`, if registered, follows |
| WorkerProperties.FailedEnd | libs/chatbot/wrappers/c/chat_client.c:369-380 | a failed request finishes exactly once with its error, and after that only `on_error`, if registered, follows |
| WorkerProperties.ExactlyOneEnd | libs/chatbot/wrappers/c/chat_client.c:354-425 | every request finishes exactly once, and at most one terminal callback follows and ends the log: `on_done` after delivery, `on_error` after a failure, never both |
| WorkerProperties.RequestLifecycle | libs/chatbot/wrappers/c/chat_client.c:498-548 | an idle context accepts a request, stays busy and rejects others until the worker serves it, then is idle again and accepts the next |
| WorkerProperties.PollAfterRequest | libs/chatbot/wrappers/c/chat_client.c:573-616 | polling after a request drains exactly the tokens the response yielded, in order, and leaves the buffer empty |
| WorkerProperties.ConnectionFailure | libs/chatbot/wrappers/c/chat_client.c:367-381 | an unreachable server: the error is "Connection failed", `on_error` is the last event when registered, there is no response, and only the user message joins the history |
| WorkerProperties.ClearThenAnswered | libs/chatbot/wrappers/c/chat_client.c:648-660 | after clearing, an answered blocking request leaves a history of exactly two entries: the user message, then an assistant message holding the returned answer |
| WorkerProperties.ExampleBlockingRequest | libs/chatbot/wrappers/c/chat_client.c:550-571 | a blocking request answered by the concrete two-event response returns `Hi!` and adds two messages |

## Left out

- Sockets: `tcp_connect`, `send_http_request` and `setsockopt` are not modelled. Their outcome is the `NetOutcome` input.
- Receive timeouts followed by more bytes (the `SO_RCVTIMEO` timeout set at `chat_client.c:384-387`): the input is one uninterrupted string, so a stall longer than the timeout is not represented. In the code such a stall does not end the response. `read_line` returns what it has stored so far, and the loops read on:
  - A stall in the middle of a line splits it. The pieces are handled as separate lines, so that event's token is usually lost, and a `done` event split this way does not stop the body loop.
  - A stall between body lines makes `read_line` return -1, and streaming ends early with the tokens received so far.
  - A stall between header lines ends the header loop early. The remaining header lines then reach the body loop, which skips every one that does not start with `{`.
- Threads: the mutex, the condition variable, thread creation and join are not modelled. Each locked section is one atomic step, and a request is served as one transition, so no call of the caller's runs while a request is in flight. The code allows such calls, and the model promises nothing about them:
  - Resubmitting in the callback window. Every terminal path of `worker_loop` sets `is_done` and releases the lock before it reads the callback and its argument from the context (`chat_client.c:357-361`, `372-376`, `392-397`, `419-424`). `chat_send_async` accepts a new request as soon as `is_done` is set, and it frees the response and error and replaces the callbacks (`chat_client.c:508-537`). A request submitted in that window means the first request's `on_done` or `on_error` never fires, and the new request's callback fires for the old request with a NULL or freed argument. `WorkerProperties.ExactlyOneEnd`, `DeliveredEnd` and `FailedEnd` hold only because the model has no such window.
  - Changing the history during a request. `chat_clear` or `chat_add_message` called while a request runs changes the history between the user message and the answer. The "grows by 2 or 1" statements of `Worker.FreshRequestOutcome`, `Worker.SendBlocking` and `WorkerProperties.BlockingAnswerHistory` assume no such call.
  - Polling while tokens stream in. This is the documented use of `chat_poll_tokens`: each poll returns the tokens buffered so far. The model states a poll only before or after a request (`WorkerProperties.PollAfterRequest`). Because the buffer is a queue and a poll drains it whole, the tokens of a run of polls together are still the response's tokens in order, but this is not proved.
- `chat_context_new` when the worker thread fails to start: the context is still returned, but no request is ever served. The model assumes the worker runs.
- `chat_context_free` and the shutdown branch of `worker_loop`: memory release and thread shutdown only. The header says `chat_context_free` stops a running request. The code sets the shutdown flag and joins the worker, which sees the flag only when it next waits, after the running request has finished.
- cJSON and `create_chat_request`: a foreign library. Decoding is the `Decoder` parameter, and a failed build is the `BuildFailed` input. The request body's JSON is not modelled.
- Allocation failures (`malloc`, `realloc`, `strdup`) and all freeing: the model has values, not allocations. `chat_add_message` therefore always returns 0, and `add_message`'s capacity doubling is not modelled.
- Response.Grow: `size_t` arithmetic is unbounded here; overflow cannot happen for responses that fit in memory.
- The `usleep` wait in `chat_send_blocking`: timing only. The request runs to its end, then the response is read.
- NULL pointer arguments to the public calls, and `user_data`: the model has no pointers. API strings are taken to be C strings, free of NUL bytes.
- `chat_get_message_count`, `chat_is_done`, `chat_get_response`, `chat_get_error` have no contract of their own. They are field reads, used by `RequestLifecycle`, `ConnectionFailure` and `SendBlocking`.
- `libs/chatbot/wrappers/c/example.c`: a demonstration program, not part of this model.
