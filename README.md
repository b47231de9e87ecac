# Shuihua voice assistant — a verified model of its core logic

The application is a chat assistant with voice input, a to-do board and a
personal page. Its browser side streams microphone audio to a small Python
backend. The backend relays the audio to a streaming speech-recognition
service and sends the recognised text back. This project models the parts
of that system that are logic rather than presentation, and proves what
they promise. The parts are:

- **Voice input** (`VoiceInput`, `Pcm`). This is the chat page's recording
  controller: the flags `isConnecting` and `isRecording`, and the refs for
  the frozen base text, the socket, the microphone stream, the audio
  processor and the audio context. Each event that changes them is a method
  of the class `Recorder`:
  - a toggle;
  - socket open, message, error or close;
  - an audio block;
  - unmount.

  The browser socket is the class `Socket`, which holds its `readyState`
  and a log of what was sent on it. `Pcm.FloatTo16BitPCM` is the
  Float32-to-Int16 encoder. It fills an array and hands over its
  little-endian buffer.
- **Chat transcript** (`ChatTranscript`). This covers the synchronous part
  of `handleSend`, `toggleReport`, and the status map of the `runSteps`
  display.
- **To-do board** (`Todo`). This covers adding, toggling and deleting the
  user's own tasks, and the merge with the system's tasks (urgent first, by
  a stable sort). It also covers the category filter, the per-type counts,
  click routing and the priority badge fallback.
- **Personal page** (`Personal`). This covers deleting a memory and the
  persona-tone selector with its overlay.
- **Speech-recognition client** (`AsrAuth`, `AsrFrames`, `AsrResults`).
  - `AsrAuth` is the signed connection URL. The canonical string is built
    by dropping blank values, sorting, percent-encoding the entries with
    Python's `quote` and joining them with `&`. The final query comes from
    `urlencode`.
  - `AsrFrames` re-cuts the relayed byte stream into 1280-byte frames,
    flushes the remainder, and then sends the end marker.
  - `AsrResults` extracts `cn.st.rt[*].ws[*].cw[*].w` from each result
    message. It keeps Python's behaviour on ill-typed JSON.
- **Relay endpoint** (`Relay`). This covers the endpoint's credential check
  and message dispatch into the audio queue, the queue generator that stops
  at the first `None`, and the `max_tokens` setting as Python's `int()`
  reads it. `int()` skips a narrower set of whitespace than `strip()`:
  non-ASCII whitespace, but of ASCII only tab through carriage return and
  space, so the separators U+001C..U+001F are not skipped.

`Common` holds the shared pieces: `Option`, bytes, filtering, flattening,
splitting and joining, and JavaScript's and Python's whitespace sets for
`trim()` and `strip()`.

Behaviour of the code worth noting:

- **Stopping.** Stopping is not a no-op when nothing is streaming: it always
  releases the capture refs.
- **Close timeout.** There is none. After `STOP` the page waits for the
  server to close the socket.
- **Transcripts.** The server sends the text of each result on its own
  (server/asr_service.py:132-135). The page's message handler replaces the
  input with the frozen base text followed by that text. Its comment at
  components/ChatView.tsx:142 expects an accumulated transcript. So after two
  results the input box shows the base text and the last result only. Both
  sides are modelled as written.

Some further points follow from the code as modelled:

- **Stale close.** The close handler of an earlier socket runs
  `stopRecording` against `wsRef` as it is now. It therefore ends a newer
  session. `VoiceInput.StaleCloseRun` exhibits this.
- **Stop while connecting.** Stopping while the socket is still CONNECTING
  drops `wsRef`, but that socket goes on to open.
- **Progress display.** The last thinking step is left active: no iteration of
  `runSteps` marks it done.
- **URL parameters.** The URL's query carries all seven authentication
  parameters, including the ones left out of the signature. An absent value
  is written as the text `None`.
- **Client disconnect.** This does not reach the endpoint's
  `WebSocketDisconnect` branch. The disconnect message carries neither bytes
  nor text. The next `receive()` raises, and the generic handler enqueues the
  terminator.
- **Service messages.** A message from the recognition service that does not
  parse, or that is not a JSON object, raises outside the inner handler and
  ends the receive loop. Other ill-typed content only drops that message.

## Model

| member | source | states |
|---|---|---|
| Pcm.FloatTo16BitPCM | components/ChatView.tsx:198-205 | the buffer has two bytes per input sample, and bytes 2i and 2i+1 decode (little-endian, signed) to the clamped, scaled and truncated sample i |
| Pcm.EncodeSampleNoWrap | components/ChatView.tsx:201-202 | the scaled sample always lies in [-32768, 32767], so the 16-bit store never wraps: the stored value is the truncated scaled value |
| Pcm.EncodeSampleBoundaries | components/ChatView.tsx:201-202 | 1.0 is stored as 32767, -1.0 as -32768 and 0 as 0; anything beyond full scale saturates to the matching end |
| Pcm.EncodeSampleHalfScale | components/ChatView.tsx:202 | the two sides are scaled differently: -0.5 gives -16384 and 0.5 gives 16383 |
| Pcm.EncodeSampleMonotone | components/ChatView.tsx:201-202 | the encoding is monotone and keeps the sign of the sample |
| Pcm.ToInt16 | components/ChatView.tsx:202 | the Int16Array store lands in [-32768, 32767] and is the identity on that range |
| Pcm.Int16RoundTrip | components/ChatView.tsx:204 | a 16-bit sample is read back from its two little-endian buffer bytes unchanged |
| Pcm.Int16BytesAt | components/ChatView.tsx:204 | bytes 2i and 2i+1 of the buffer are the low and high byte of sample i |
| VoiceInput.Socket.constructor | components/ChatView.tsx:122-129 | a new socket is CONNECTING and has sent nothing |
| VoiceInput.Socket.Send | components/ChatView.tsx:190-195 | a send on an OPEN socket appends exactly that message to its log; in this model, where the processor is rebound to each newly opened socket, audio is never sent after the STOP sentinel |
| VoiceInput.Recorder.constructor | components/ChatView.tsx:84-93 | the controller starts idle: empty input and base text, both flags false, every ref null |
| VoiceInput.Recorder.Edit | components/ChatView.tsx:484 | editing the box changes the input text and nothing else, in particular not the frozen base text |
| VoiceInput.Recorder.Stop | components/ChatView.tsx:207-233 | processor, audio context and stream are released and isRecording is false; STOP is appended to the socket's log exactly when wsRef was OPEN, and otherwise wsRef becomes null and that socket is untouched |
| VoiceInput.Recorder.Start | components/ChatView.tsx:116-170 | while connecting nothing changes; otherwise the base text becomes the current input, and a granted microphone gives a fresh CONNECTING socket in wsRef with isConnecting set, while a refused one clears isConnecting again |
| VoiceInput.Recorder.Toggle | components/ChatView.tsx:235-242 | ignored while connecting (the state is unchanged); otherwise stop when recording and start when not, with those methods' full effects; a socket that is dropped is left untouched |
| VoiceInput.Recorder.OnOpen | components/ChatView.tsx:131-137 | the socket becomes OPEN, isRecording is set and isConnecting cleared, and processAudio binds a processor and an audio context to that socket |
| VoiceInput.Recorder.OnMessage | components/ChatView.tsx:139-151 | a message with non-empty text sets the input to exactly base text plus that text (a replace, not an append); an error-only message changes nothing |
| VoiceInput.Recorder.OnAudio | components/ChatView.tsx:172-196 | an audio block sends exactly one binary frame, the PCM encoding of the block, and only while the bound socket is OPEN; otherwise nothing changes |
| VoiceInput.Recorder.OnClosed | components/ChatView.tsx:153-163 | error or close marks the socket CLOSED, clears isConnecting and runs stopRecording against the current wsRef: STOP goes out only when wsRef is another, OPEN socket, and another socket that is dropped is left untouched |
| VoiceInput.Recorder.Unmount | components/ChatView.tsx:110-114 | unmounting has exactly the effect of stopRecording, including leaving a dropped socket untouched |
| ChatTranscript.HandleSendSpec | components/ChatView.tsx:244-251 | whitespace-only content (an explicit text, or else the input box) changes nothing; any other content appends exactly one user message with it at the end, keeps the earlier messages, clears the input and starts thinking |
| ChatTranscript.ToggleReportSpec | components/ChatView.tsx:314-316 | length and order are kept, showReport flips exactly on messages with that id, and id, role and content never change |
| ChatTranscript.ToggleReportTwice | components/ChatView.tsx:314-316 | toggling the same report twice restores the transcript |
| ChatTranscript.MarkActive | components/ChatView.tsx:255-257 | the status map keeps the number of steps, the id and text of each step, and makes step i active, earlier steps done and later ones pending |
| ChatTranscript.RunSteps | components/ChatView.tsx:253-260 | after the walk every step keeps its id and text; every step is done except the last, which is left active |
| Todo.AddUserTaskSpec | components/TodoView.tsx:61-75 | a whitespace-only title changes nothing; otherwise exactly one open, high-priority user task of type task with that title, the id user-<stamp>, the user as sender and the given time is prepended to the unchanged list, and the title box is cleared |
| Todo.ToggleUserTaskSpec | components/TodoView.tsx:77-79 | completed flips exactly on the tasks with that id; length, order and every other field are kept |
| Todo.ToggleUserTaskTwice | components/TodoView.tsx:77-79 | toggling the same id twice restores the list |
| Todo.DeleteUserTaskSpec | components/TodoView.tsx:81-83 | the result is a subsequence of the list without the id, every task with another id survives, one task is lost per occurrence of the id, and an absent id leaves the list unchanged |
| Todo.StableSortIsPartition | components/TodoView.tsx:88-92 | sorting with the urgent-first comparator (a stable insertion sort) gives the urgent tasks in order followed by the rest in order |
| Todo.AllTasksSpec | components/TodoView.tsx:86-93 | the merged list is a permutation of user tasks followed by system tasks; every urgent task comes before every other task, and the order within each group is kept |
| Todo.FilteredTasksSpec | components/TodoView.tsx:95-98 | "all" shows everything; any other category shows, in order, exactly the tasks of that type |
| Todo.GetCount | components/TodoView.tsx:59 | the count is the number of demo tasks of that type, at most the number of tasks |
| Todo.TaskClickSpec | components/TodoView.tsx:100-108 | a system task clicked under "all" switches to its type; one clicked in a category is selected; a user task changes nothing |
| Todo.PriorityStyleFallback | components/TodoView.tsx:32-44 | an unknown priority gets the normal style and label; the three styles are distinct and carry the labels 紧急, 重要 and 常规 |
| Personal.DeleteMemorySpec | components/PersonalView.tsx:83-85 | every memory with that id is removed and nothing else: the rest keep order and content, exactly one memory is lost per occurrence of the id, and an absent id changes nothing |
| Personal.DeleteMemoryCommutes | components/PersonalView.tsx:83-85 | deleting is idempotent, and deletions of two ids commute |
| Personal.ToneStepSpec | components/PersonalView.tsx:87-90 | after one click the selector is open exactly when it was the tone card; only a choice changes the tone, and it makes that tone current |
| Personal.RunToneSpec | components/PersonalView.tsx:120-162 | after any clicks the selector is open exactly when the last click was on the card, and the tone is the last one chosen (the first tone if none was) |
| Personal.RunToneFromList | components/PersonalView.tsx:11-45 | when only offered clicks are made and choices come from the list, the current tone is always one of the four modes, and card clicks alternate with closing clicks |
| AsrAuth.AuthParamsSpec | server/asr_service.py:41-53 | the seven parameters have distinct keys, none of them "signature"; the three fixed values always enter the signature, the uuid and timestamp exactly when not blank, and each credential exactly when present and not blank |
| AsrAuth.GeneratedValuesSigned | server/asr_service.py:33-37 | a 32-digit lower-case hex uuid and a timestamp starting with a year digit are never blank, so all five generated and fixed values enter the signature |
| AsrAuth.SortPermutes | server/asr_service.py:50-53 | sorting is a permutation of its input |
| AsrAuth.SortAscending | server/asr_service.py:50-53 | with distinct keys the sorted parameters are in strictly ascending key order |
| AsrAuth.SignedParamsSpec | server/asr_service.py:50-53 | the signed parameters are exactly those present and non-blank after stripping, each once, in ascending key order |
| AsrAuth.Utf8RoundTrip | server/asr_service.py:56 | UTF-8 decoding undoes the encoding that quote applies first |
| AsrAuth.QuoteBytesRoundTrip | server/asr_service.py:56 | percent-decoding undoes the quoting of any byte string |
| AsrAuth.QuoteRoundTrip | server/asr_service.py:56 | quoting is injective (the quoted text decodes back to the string) and uses only unreserved characters, '%' and its hex digits |
| AsrAuth.QuoteSeparatorFree | server/asr_service.py:56 | a quoted key or value contains neither '&' nor '=' |
| AsrAuth.QuoteUnreserved | server/asr_service.py:56 | a string of the RFC 3986 unreserved characters is left as it is |
| AsrAuth.NoSpaceQuotePlus | server/asr_service.py:70 | without a space, urlencode's quote_plus agrees with quote |
| AsrAuth.HexDigit | server/asr_service.py:56 | an escape digit is an upper-case hex digit with that value |
| AsrAuth.EntryParses | server/asr_service.py:56 | each entry is non-empty, holds no '&', and reads back to its key and value |
| AsrAuth.BaseStringSpec | server/asr_service.py:55-58 | the base string splits on '&' into exactly the entries of the signed parameters, and reads back to their keys, order and values |
| AsrAuth.UrlEncodeSplits | server/asr_service.py:70 | the query splits into one entry per parameter, in order |
| AsrAuth.SignedQuerySplits | server/asr_service.py:67-70 | adding the signature appends exactly one entry, signature=quoted signature, after the others |
| AsrAuth.CreateUrlSpec | server/asr_service.py:39-71 | the URL is the base URL, '?', all seven parameters in insertion order (unsigned ones included, an absent value as "None"), then exactly one signature entry carrying the signature of the base string |
| AsrFrames.OutgoingSpec | server/asr_service.py:153-187 | the last message is the end marker (sent in-band, so a 13-byte remainder with the same bytes would look the same); the audio messages are whole 1280-byte frames, then at most one shorter non-empty remainder, and they concatenate to exactly the input stream |
| AsrFrames.Reassemble | server/asr_service.py:158-177 | the frames cut from a stream, together with the remainder, give back the stream |
| AsrFrames.FramesOfAligned | server/asr_service.py:158-164 | a stream of whole frames followed by a short remainder is cut into exactly those frames with exactly that remainder |
| AsrFrames.SendAudio | server/asr_service.py:144-190 | the send loop skips empty chunks and cuts whole frames as soon as the buffer holds one; it sends exactly the frames, the remainder and the end marker, and counts the bytes of every whole frame |
| AsrResults.CwsLoop | server/asr_service.py:124-126 | the innermost loop accumulates the words of one ws item, or raises as Python would |
| AsrResults.WsLoop | server/asr_service.py:123-126 | the middle loop accumulates the ws items of one rt entry |
| AsrResults.ExtractText | server/asr_service.py:118-126 | the nested loops give the text of the st dict, the empty text without an "rt" key, or the exception Python would raise |
| AsrResults.CatAssoc | server/asr_service.py:126 | accumulating text, with exceptions propagating, is associative |
| AsrResults.StTextWellFormed | server/asr_service.py:118-126 | on a well-formed st dict the text is the in-order concatenation of every present w, and entries without one are skipped |
| AsrResults.ResultFrameHandled | server/asr_service.py:98-135 | a well-formed result frame yields one callback exactly when some word is present, with that text, and is_final exactly for type "0" |
| AsrResults.HandleFrameSpec | server/asr_service.py:98-141 | the loop ends exactly on a frame that does not parse or is not an object; a callback carries non-empty text from a result-tagged frame with truthy data, and is_final is true exactly when st.type is "0" |
| AsrResults.ReceiveMsg | server/asr_service.py:89-141 | the receive loop makes exactly the callbacks of the frames, in order, until the remote closes or a frame ends the loop |
| AsrResults.ReceivedStopsAtClose | server/asr_service.py:92-96 | nothing after the remote closes is read |
| AsrResults.ReceivedBound | server/asr_service.py:89-141 | at most one callback per frame |
| Relay.Endpoint | server/main.py:38-102 | a missing app id or API key closes with 1008 and queues nothing; otherwise the queue is exactly the dispatch of the events |
| Relay.EnqueuedSpec | server/main.py:76-99 | non-empty bytes are queued in arrival order and empty ones dropped; STOP queues None and the loop continues; other text queues nothing; a disconnect or a receive error queues one None and ends the loop |
| Relay.EnqueuedChunksNonEmpty | server/main.py:81-84 | every queued chunk is non-empty |
| Relay.GeneratorTerminates | server/main.py:94-99 | a client that disconnects or errors always puts a None in the queue, so the generator terminates |
| Relay.AudioGenerator | server/main.py:60-65 | the generator yields queue items in FIFO order up to the first None, and it finishes exactly when there is a None |
| Relay.FirstEnd | server/main.py:60-65 | the first None in the queue, or the queue's length: no None comes before it |
| Relay.YieldedSpec | server/main.py:60-65 | exactly the chunks before the first None are yielded, in order, and nothing queued after it |
| Relay.YieldedIsClientAudio | server/main.py:76-99 | the generator yields exactly the non-empty binary payloads the client sent before its first STOP or before going away |
| Relay.RelayForwardsAudio | server/main.py:60-99 | end to end, once the queue holds a None, the audio the recognition service receives concatenates to exactly the client's non-empty chunks before its STOP, followed by the end marker |
| Relay.RelayForwardsAudioOnLeave | server/main.py:94-99 | a client that disconnects or fails has all its audio before any STOP forwarded, followed by the end marker |
| Relay.ParseDecimalString | server/main.py:117-120 | int() reads the decimal text of any integer within the digit limit back as that integer |
| Relay.MaxTokensUnset | server/main.py:117-120 | an unset variable gives 2000 |
| Relay.MaxTokensRoundTrip | server/main.py:117-120 | a variable holding an integer's decimal text gives that integer |
| Relay.MaxTokensPadded | server/main.py:117-120 | whitespace int() skips (ASCII tab through carriage return and space, and non-ASCII Unicode whitespace) around the setting is ignored |
| Relay.MaxTokensBlank | server/main.py:117-120 | an empty setting, or one made only of characters strip() counts as whitespace, falls back to 2000 |
| Relay.MaxTokensSeparatorKept | server/main.py:117-120 | U+001C is whitespace to strip() but not to int(), and a setting that starts with it falls back to 2000 |
| Relay.MaxTokensNonNumeric | server/main.py:117-120 | a setting holding any character other than a digit, an underscore, a sign or whitespace (a letter, the point of a float) falls back to 2000 |
| Relay.MaxTokensDoubleUnderscore | server/main.py:117-120 | a setting with two underscores in a row falls back to 2000 |
| Relay.UnderscoreSeparated | server/main.py:118 | a single underscore between digit groups is accepted and ignored, as in 1_000 |
| Relay.ParsePyIntPadded | server/main.py:118 | int() reads only what is left after removing the whitespace int() skips (ASCII tab through carriage return and space, and non-ASCII Unicode whitespace) |
| Common.TrimSlice | server/asr_service.py:52 | strip() keeps one contiguous stretch of the text and removes only whitespace around it |
| Common.SplitJoin | server/asr_service.py:58 | joining strings that hold no separator and splitting again gives them back |
| Common.FilterPartition | components/TodoView.tsx:88-92 | the elements kept by a predicate and those kept by its complement together form a permutation of the list |

## Left out

- The analogue half of capture is left out: getUserMedia, AudioContext resampling to 16 kHz, the ScriptProcessorNode and the browser WebSocket are event sources and sinks. The outcome of the microphone request is a parameter of `Recorder.Start`, and socket events are method calls.
- React semantics are left out: every state setter is an immediate assignment. Batching and stale closures are not modelled; `startRecording` is one atomic step.
- The sphere status and console logging have no effect on the modelled state and are left out.
- VoiceInput.Socket.Send: the no-audio-after-STOP invariant holds only in the model, where a second `OnOpen` rebinds the one processor. In the code, processAudio overwrites processorRef without disconnecting the processor already there. So this order of events breaks it: a stale close drops wsRef while socket A is still connecting; the user starts socket B; B opens and gets processor pB; A then opens and takes processorRef. A later stopRecording disconnects only A's processor and sends STOP on B, and pB keeps sending audio on B. Orphaned processors are not modelled.
- VoiceInput.Recorder.Stop: calling stopRecording twice on an OPEN socket sends STOP twice, so only the release of the capture refs is idempotent, not the sentinel.
- Pcm.EncodeSample: samples are exact reals with truncation toward zero; IEEE-754 rounding and NaN are not modelled, and the Int16Array buffer is taken as little-endian.
- The fetch to `/api/chat` in handleSend and the agent or error message it appends afterwards are network I/O; only the synchronous part of handleSend is modelled.
- ChatTranscript.RunSteps: the 600 ms pauses between steps are left out.
- handleActionClick (components/TodoView.tsx:110-116) navigates to the chat view with a generated prompt, and the detail view's back button (components/TodoView.tsx:273) clears the selection; both are view routing and are not modelled.
- Todo.PriorityStyleFallback: priorities that name properties of Object.prototype (for example "toString") are not modelled.
- Tab, memo textarea and empty-state rendering on the to-do and personal pages are presentation, as is the initial demo data; the system tasks are a parameter.
- HMAC-SHA1, Base64, uuid4 and the wall clock in create_url are foreign: the signing function, the uuid and the timestamp are parameters of `AsrAuth.CreateUrl`.
- A missing api_secret makes create_url raise before the stream's handler is entered; that path is not modelled.
- json.loads is a parameter of the receive loop; JSON numbers are integers in the model, and floats are not modelled.
- The error-code log line in receive_msg (server/asr_service.py:104-105) only prints and is left out.
- Python's int() also accepts non-ASCII Unicode digits; the model accepts ASCII digits only.
- The concurrency of the relay is left out: asyncio.gather, the blocking asyncio.Queue, the time-based flow-control pause in send_audio (server/asr_service.py:166-173) and send failures. The queue is a sequence that has fully arrived.
- The chat endpoint's LLM call and its float temperature setting (server/main.py:112-115) are network I/O and floating point.
- SSL setup, the connection failure path (server/asr_service.py:195-197) and the remote's close of the recognition socket after the end marker are left out.
- VoiceInput.Recorder.OnMessage: the message arrives already parsed, with string fields; an unparsable message makes JSON.parse throw before any state changes, and non-string text fields are not modelled.
- Relay.MaxTokensNonNumeric: int() also rejects whitespace inside the setting and a lone or repeated sign; `ParsePyInt` computes those cases too, but no lemma states them.
