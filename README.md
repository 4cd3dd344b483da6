# LingoFlow AI — audio glue, recording session and lesson flow in Dafny

LingoFlow AI is a browser vocabulary tutor. A remote generative-AI service
proposes topics and words, synthesises pronunciation audio and grades the
learner's recorded attempt. This project models the local logic around those
calls and proves properties of it:

- **Audio decoding and playback** (`audio_utils.dfy`, module `AudioUtils`).
  `playBase64Audio` sends a payload that starts with `data:audio` to the
  platform's audio element. Any other payload is raw PCM. `atob` decodes it,
  and `decodeBase64` copies the character codes into a fresh byte array with a
  loop. `decodePCM` then reads the bytes as signed 16-bit little-endian mono
  samples and writes each one, divided by 32768, into channel 0 of a new
  24000 Hz buffer, again with a loop. Both loops are methods over arrays,
  proved against specification functions (`ByteCodes`, `DecodedSamples`).
  `playBase64Audio` is a method proved equal to the function `PlaybackOf`.
- **The recording session of a word card** (`word_card.dfy`, module
  `WordCard`). This is a class whose fields are the card's state: the
  recorder reference, `isRecording`, the chunk list, the evaluation, the two
  busy flags, and the microphone streams not yet released. Its handlers are
  methods: start, chunk delivery, stop, the recorder's stop event, the
  evaluation request, speech playback and "Try Again". The finished recording
  is the concatenation of the chunk list, tagged `audio/webm`.
- **The lesson flow** (`app.dfy`, module `App`). This is a class over the
  screen, the topic list, the chosen topic, the vocabulary, the word index
  and the loading flags, with methods for the four handlers. Its invariant
  keeps `vocabulary[currentWordIndex]` in bounds whenever there are words.
  `NextWord` and `AfterClicks` describe any sequence of Next presses. The
  progress bar value is a function.
- **The service client's local rules** (`gemini_service.dfy`, module
  `GeminiService`). These are the topics prompt choice, the `"[]"`/`"{}"`
  fallbacks for a missing response text, the selection of the audio in a
  speech response, and the anchored replace of
  `^data:audio\/[a-z]+;base64,`. The replace is modelled as a scanner. The
  lemmas prove it equal to "remove the unique prefix that matches the
  pattern, if there is one".
- `common.dfy` and `types.dfy` hold the shared value types: `Option`,
  `Result`, bytes, and the topic, word and evaluation records.

Every browser API and every remote call is an input to the model:

- what `atob` returns (a function `string -> Option<string>`, `None` when it
  throws);
- whether the audio element starts playing;
- how far `startRecording` gets before something throws (`StartOutcome`);
- the data URI `blobToBase64` produces, or none if it rejects;
- each service response, or the error it threw.

Each handler is one atomic step.

Three behaviours of the code are modelled as written:

- An odd number of PCM bytes is not truncated. `new Int16Array(data.buffer)`
  throws a RangeError, which `playBase64Audio` catches, so nothing plays
  (`DecodePCM`, `OddLengthPlaysNothing`).
- The microphone stream is released only when the blob's conversion
  succeeds (`OnStop`). A stream acquired just before `new MediaRecorder` or
  `start()` throws is never released (`StartRecording`).
- Nothing stops `startRecording` while a recording is running. A stop on a
  recorder that is already inactive does nothing, as the MediaRecorder
  specification says.

## Model

| member | source | states |
|---|---|---|
| AudioUtils.ByteCodes | utils/audioUtils.ts:17-24 | as many bytes as `atob`'s string has characters; for a binary string byte i is the code of character i |
| AudioUtils.BinaryStringRoundTrip | utils/audioUtils.ts:18-23 | copying a binary string into bytes loses nothing: turning the bytes back into characters gives the same string |
| AudioUtils.ByteCodesRoundTrip | utils/audioUtils.ts:20-23 | every byte array is what the copy loop makes of exactly one binary string |
| AudioUtils.DecodeBase64 | utils/audioUtils.ts:17-25 | the loop fills a fresh array whose contents are exactly the byte codes of the binary string |
| AudioUtils.Normalize | utils/audioUtils.ts:42 | a 16-bit sample divided by 32768 lies in [-1, 1) and keeps its sign |
| AudioUtils.NormalizeLandmarks | utils/audioUtils.ts:42 | -32768 maps to exactly -1, 0 to 0, and 32767 to 32767/32768, which lies strictly between 0.999 and 1 |
| AudioUtils.NormalizeStrictlyMonotonic | utils/audioUtils.ts:42 | the conversion keeps the order of samples, so distinct samples stay distinct |
| AudioUtils.Samples | utils/audioUtils.ts:34-44 | an even byte string decodes to exactly half as many samples, each in [-1, 1) |
| AudioUtils.Int16LE | utils/audioUtils.ts:34 | the two's-complement reading of a low and a high byte: congruent modulo 65536 to the unsigned value, low byte recovered modulo 256, negative exactly when the high byte's top bit is set |
| AudioUtils.SampleAt | utils/audioUtils.ts:34 | sample i of the `Int16Array` view is the value whose little-endian encoding is bytes 2i and 2i+1 |
| AudioUtils.EncodeInt16LE | utils/audioUtils.ts:34 | low byte first, two's complement: reading the two bytes back as a signed little-endian sample gives the value |
| AudioUtils.EncodePcmSampleAt | utils/audioUtils.ts:34-42 | sample i of raw PCM built from a list of samples is element i of that list |
| AudioUtils.DecodeEncodedPcm | utils/audioUtils.ts:34-44 | decoding raw PCM gives back the normalised samples it was made from |
| AudioUtils.SquareWaveSecond | utils/audioUtils.ts:31-44 | 48000 bytes of +16000/-16000 decode to 24000 samples alternating 0.48828125 and -0.48828125 |
| AudioUtils.DecodedSamples | utils/audioUtils.ts:33-44 | odd byte count fails with a range error; otherwise byteLength/2 frames, frame i being the normalised little-endian sample i |
| AudioUtils.AudioBuffer.constructor | utils/audioUtils.ts:36 | a buffer with the requested channel count, length and rate, each channel a fresh array of that length |
| AudioUtils.AudioBuffer.GetChannelData | utils/audioUtils.ts:39 | the channel array has the buffer's length |
| AudioUtils.DecodePCM | utils/audioUtils.ts:28-46 | fails exactly on an odd byte count; otherwise a fresh mono buffer at the given rate (24000 by default) of byteLength/2 frames whose channel 0 holds the decoded samples; the input array is not modified |
| AudioUtils.PlaybackOf | utils/audioUtils.ts:52-76 | the audio element plays exactly the `data:audio` payloads it accepts, with the payload itself as its source; PCM comes only from other payloads, at 24000 Hz, with every sample in [-1, 1) |
| AudioUtils.PlayBase64Audio | utils/audioUtils.ts:52-76 | the outcome is `PlaybackOf` the payload: native element, 24000 Hz PCM, or a logged error, never a thrown one |
| AudioUtils.DataUriPlaysNatively | utils/audioUtils.ts:55-59 | a `data:audio` payload goes to the audio element, and what `atob` would do with it plays no part |
| AudioUtils.RawPayloadTakesPcmPath | utils/audioUtils.ts:61-71 | any other payload never reaches the audio element; it plays as 24000 Hz PCM exactly when `atob` accepts it and gives an even byte count |
| AudioUtils.OddLengthPlaysNothing | utils/audioUtils.ts:65-75 | an odd decoded byte count is not truncated: nothing plays and the range error is logged |
| AudioUtils.EmptyPayloadIsEmptyPcm | utils/audioUtils.ts:61-66 | the empty payload takes the PCM path and decodes to no samples |
| GeminiService.TopicsPrompt | services/geminiService.ts:10-14 | no interests give the fixed default prompt; given interests are embedded verbatim after the fixed head |
| GeminiService.TopicsPromptInjective | services/geminiService.ts:12-14 | equal prompts come from equal interests, so the default prompt is never the prompt for any interest |
| GeminiService.ResponseText | services/geminiService.ts:38 | a present non-empty text is kept, anything else becomes the fallback; with a non-empty fallback the result is never empty |
| GeminiService.FallbacksNeverEmpty | services/geminiService.ts:146 | the texts handed to the parser for lists and for the evaluation are never empty; missing or empty text becomes `[]` or `{}` |
| GeminiService.InlineAudio | services/geminiService.ts:94 | audio is found only in the inline data of the first part of the first candidate's content |
| GeminiService.GenerateTTS | services/geminiService.ts:78-100 | audio is returned exactly when the call succeeded and the inline data is present and non-empty, and it is that data; otherwise null |
| GeminiService.GenerateTTSOfWellFormedResponse | services/geminiService.ts:94-95 | the audio of the first part of the first candidate is returned whatever follows it |
| GeminiService.IsAudioHeader | services/geminiService.ts:109 | a full match of `^data:audio\/[a-z]+;base64,` starts with `data:audio/`, is at least 20 characters long, and its only `;` is the one of `;base64,` |
| GeminiService.LowerRun | services/geminiService.ts:109 | the longest run of lower-case ASCII letters from a position, as `[a-z]+` consumes it |
| GeminiService.HeaderLength | services/geminiService.ts:109 | when the scanner reports a length, that prefix matches `data:audio/[a-z]+;base64,` |
| GeminiService.HeaderLengthComplete | services/geminiService.ts:109 | whenever a prefix matches the pattern, the scanner reports exactly that prefix |
| GeminiService.HeaderUnique | services/geminiService.ts:109 | at most one prefix of a string matches the pattern |
| GeminiService.StripAudioHeader | services/geminiService.ts:108-109 | the result is always a suffix of the input |
| GeminiService.StripAudioHeaderSpec | services/geminiService.ts:109 | the matching prefix is removed when there is one and the string is unchanged otherwise; the string changes if and only if some prefix matches |
| GeminiService.HeaderOfSubtype | services/geminiService.ts:109 | `data:audio/<subtype>;base64,` matches for every non-empty lower-case subtype |
| GeminiService.StripHeaderOfSubtype | services/geminiService.ts:109 | such a header is removed and the rest returned unchanged, even when the rest starts with another header |
| GeminiService.OtherSubtypeKept | services/geminiService.ts:109 | a subtype with a digit, hyphen or upper-case letter is not matched, so the string is unchanged |
| GeminiService.ParameterizedHeaderKept | services/geminiService.ts:109 | a subtype followed by parameters such as `;codecs=opus` is not matched, so the string is unchanged |
| GeminiService.RawBase64Kept | services/geminiService.ts:109 | raw base64 is never changed |
| GeminiService.StripRecordedPayload | services/geminiService.ts:109 | the recorder's `data:audio/webm;base64,<body>` becomes exactly `<body>`, and stripping again changes nothing |
| WordCard.Flatten | components/WordCard.tsx:47 | the concatenated bytes number the sum of the chunk sizes |
| WordCard.FinalizeRecording | components/WordCard.tsx:47 | the recording is tagged `audio/webm` and is as long as all chunks together |
| WordCard.FlattenAppend | components/WordCard.tsx:42-47 | a chunk appended to the list ends up at the end of the recording |
| WordCard.FlattenPlacesChunk | components/WordCard.tsx:47 | chunk k sits in the recording right after the bytes of the chunks before it |
| WordCard.TwoChunkRecording | components/WordCard.tsx:42-47 | chunks of 100 and 50 bytes make one 150-byte recording, A then B |
| WordCard.EmptyRecording | components/WordCard.tsx:47 | a session with no chunks still finalises, to an empty `audio/webm` recording |
| WordCard.NonEmpty | components/WordCard.tsx:42-44 | the kept chunks are never more than the delivered ones, are all non-empty, and a chunk is kept if and only if it was delivered and is non-empty |
| WordCard.NonEmptyConcat | components/WordCard.tsx:42-44 | filtering keeps delivery order: the chunks kept from two runs of deliveries are the first run's kept chunks followed by the second's |
| WordCard.NonEmptyStep | components/WordCard.tsx:42-44 | one more delivery appends the chunk to the kept list exactly when it is non-empty |
| WordCard.KeptChunksBytes | components/WordCard.tsx:42-47 | appending the kept chunks of a run of deliveries to a recording adds every delivered byte, in order, at its end |
| WordCard.FlattenConcat | components/WordCard.tsx:47 | the recording of two runs of chunks is the first run's bytes followed by the second's |
| WordCard.NonEmptyKeepsAllBytes | components/WordCard.tsx:42-47 | dropping empty chunks loses no audio: the recording of the kept chunks is every delivered byte in order |
| WordCard.IsSuccessScore | components/WordCard.tsx:146-149 | a score with the success styling (at least 80) is also a passing score (above 70) |
| WordCard.ShowsNextButton | components/WordCard.tsx:179 | the Next button needs a handler, and every success-styled score shows it when there is one |
| WordCard.ScoreThresholds | components/WordCard.tsx:146-179 | a success-styled score (at least 80) always shows Next when a handler exists; scores in (70, 80) show Next without success styling; 70 or less shows neither; no handler, no Next |
| WordCard.WordCardComponent.constructor | components/WordCard.tsx:13-19 | not recording, evaluating or playing; no evaluation, no recorder, no chunks, no live stream |
| WordCard.WordCardComponent.StartRecording | components/WordCard.tsx:34-61 | the evaluation is cleared first; the stream is live once acquired; the recorder reference and the empty chunk list are set before `start()`; `isRecording` becomes true only when `start()` returns |
| WordCard.WordCardComponent.OnDataAvailable | components/WordCard.tsx:42-44 | an empty chunk is dropped and any other is appended, so the recording grows by exactly that chunk's bytes at its end |
| WordCard.WordCardComponent.ReceiveChunks | components/WordCard.tsx:42-44 | `ondataavailable` fired once per delivered chunk, in order: the chunk list gains exactly `NonEmpty` of the deliveries at its end, so the recording gains every delivered byte; nothing else changes |
| WordCard.WordCardComponent.StopRecording | components/WordCard.tsx:63-68 | does nothing unless a recorder exists and `isRecording` holds; otherwise the recorder becomes inactive and `isRecording` false |
| WordCard.WordCardComponent.HandleEvaluation | components/WordCard.tsx:70-80 | the header-stripped recording is sent; the evaluation changes only on success; not evaluating afterwards either way |
| WordCard.WordCardComponent.OnStop | components/WordCard.tsx:46-53 | the chunks become one `audio/webm` blob; the evaluation is started and the stream released only if the blob's conversion succeeds |
| WordCard.WordCardComponent.HandlePlayTTS | components/WordCard.tsx:21-32 | plays the synthesised audio if there is any, as `PlaybackOf` decides, and is not playing afterwards whatever the outcome; the in-flight guard is stated too, but since each handler is one atomic step no reachable state has `isPlayingTTS` set, so that clause never applies |
| WordCard.WordCardComponent.TryAgain | components/WordCard.tsx:153 | the evaluation is dropped, bringing back the record button unless an evaluation is running |
| App.NextWord | App.tsx:50-56 | the index moves to the next word only while one remains and otherwise the summary is shown with the index unchanged, so an in-bounds index stays in bounds |
| App.AfterClicks | App.tsx:50-56 | repeated Next presses never move the index backwards, move it at most once per press, keep an in-bounds index in bounds, and never leave the summary |
| App.SummaryIsFinal | App.tsx:50-56 | once the summary is shown on the last word, further Next presses change nothing |
| App.ClicksFrom | App.tsx:50-56 | from word i, k presses reach word min(i+k, len-1), and the summary exactly when i+k reaches len |
| App.LessonFromStart | App.tsx:41-56 | starting at word 0 of a non-empty lesson, the index stays below the length under any number of presses, and the summary comes after exactly len presses |
| App.Progress | App.tsx:149 | the bar lies in (0, 100] and is exactly 100 on the last word and only there |
| App.ProgressIncreases | App.tsx:149 | the bar grows with every word |
| App.AppComponent.CurrentWord | App.tsx:137-141 | the word shown is one of the vocabulary: the index is in bounds whenever there are words |
| App.AppComponent.constructor | App.tsx:9-15 | topic screen, no topics, topics loading, no topic chosen, no vocabulary, not loading words, index 0 |
| App.AppComponent.LoadTopics | App.tsx:22-32 | topics are replaced only on success; not loading afterwards either way; nothing else changes |
| App.AppComponent.HandleTopicSelect | App.tsx:34-48 | the topic is chosen; on success the lesson screen shows the new words from word 0, on failure the topic screen comes back; not loading afterwards either way |
| App.AppComponent.HandleNextWord | App.tsx:50-56 | screen and index become `NextWord` of the old ones; the index stays in bounds |
| App.AppComponent.ResetApp | App.tsx:58-63 | topic screen, no topic, no vocabulary, index 0; topics kept |

## Left out

- `atob`: it is a parameter of the model. Its browser "forgiving base64" decoding is not specified, and the repository has no encoder to pair it with.
- Float32 storage: channel values are exact reals, not rounded to single precision.
- Host byte order: `Int16Array` is read as little-endian, the order of every browser host. Big-endian hosts are not modelled.
- `AudioContext` and the playback graph: the context, `createBufferSource`, `connect` and `start` are left out. `PcmSource` records what would be played. The context is never closed, and that is not modelled either.
- Platform failures of `createBuffer` (a zero length, an unsupported rate) are not modelled. The empty payload therefore ends in an empty `PcmSource`.
- `blobToBase64` and `FileReader`: the data URI they produce, or their rejection, is an input to `OnStop`.
- `getUserMedia`, `MediaRecorder` and `Audio`: they are reduced to `StartOutcome`, a stream number, the recorder's two states and a boolean for `play()`.
- The remote calls (`getAI`, `generateContent`) and `JSON.parse`: their results are inputs. The texts of the vocabulary, evaluation and speech prompts are not modelled, and neither is the inline-data MIME tag of the evaluation request.
- Asynchrony: each handler is one atomic step. The window in which `isEvaluating` or `isPlayingTTS` is true while a call is pending is not modelled, and neither are races (two overlapping recordings, a reset during a pending topic selection, React state batching).
- WordCard.WordCardComponent.OnStop: it releases the stream given as a parameter, namely the one captured by the stopping recorder. The model does not check that this stream belongs to that recorder.
- `console.error` logging and the microphone `alert`: `StartRecording` returns false where the alert is shown, and `Logged` stands for a logged playback error.
- The percentage label next to the progress bar: `Math.round` of the same ratio (App.tsx:153) is not modelled. The rounded label can already read 100 before the last word once a lesson has more than 200 words, so `Progress`'s "100 only on the last word" holds for the bar's width, not for the label.
- The mount effect that first calls `loadTopics`: the constructor gives the state before it, and the effect is a call of `LoadTopics`.
- Rendering, styling and components/TopicGrid.tsx (user interface). From types.ts only the data shapes are mirrored.
