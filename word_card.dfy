/** The state of one vocabulary card (components/WordCard.tsx): the microphone
    recording session, the chunks it collects, the evaluation request, and the
    pronunciation playback. Each handler is one atomic step; what the browser
    and the remote service answer is passed in. */
module WordCard {
  import opened Common
  import opened Types
  import AudioUtils
  import GeminiService

  /** The container type the finished recording is tagged with. */
  const RecordingMimeType: string := "audio/webm"

  /** Scores at or above this get the success styling. */
  const SuccessScore: real := 80.0

  /** Scores above this reveal the Next button. */
  const PassScore: real := 70.0

  /** A `Blob`: bytes and a type tag. */
  datatype Blob = Blob(bytes: seq<Byte>, mimeType: string)

  /** A microphone stream, named by the device. */
  type StreamId = nat

  /** `MediaRecorder.state`, as far as this component can observe it. */
  datatype RecorderState = Inactive | Recording

  /** A recorder and the stream it records; its `onstop` releases that stream. */
  datatype Recorder = Recorder(stream: StreamId, state: RecorderState)

  /** How far `startRecording` gets before something throws. */
  datatype StartOutcome =
    | DeviceDenied                      // getUserMedia rejects
    | RecorderRejected(stream: StreamId) // new MediaRecorder throws
    | StartRejected(stream: StreamId)    // mediaRecorder.start() throws
    | Started(stream: StreamId)

  // ---------------------------------------------------------------------------
  // The finished recording
  // ---------------------------------------------------------------------------

  /** The number of bytes in `chunks`. */
  function TotalSize(chunks: seq<Blob>): nat
  {
    if chunks == [] then 0 else |chunks[0].bytes| + TotalSize(chunks[1..])
  }

  /** The bytes of `chunks`, one after the other. */
  function Flatten(chunks: seq<Blob>): (bytes: seq<Byte>)
    ensures |bytes| == TotalSize(chunks)
  {
    if chunks == [] then [] else chunks[0].bytes + Flatten(chunks[1..])
  }

  /** `new Blob(chunks, { type: 'audio/webm' })`. */
  function FinalizeRecording(chunks: seq<Blob>): (blob: Blob)
    ensures blob.mimeType == RecordingMimeType
    ensures |blob.bytes| == TotalSize(chunks)
  {
    Blob(Flatten(chunks), RecordingMimeType)
  }

  /** A chunk appended to the list ends up at the end of the recording. */
  lemma {:induction false} FlattenAppend(chunks: seq<Blob>, chunk: Blob)
    ensures Flatten(chunks + [chunk]) == Flatten(chunks) + chunk.bytes
  {
    if chunks == [] {
      assert [] + [chunk] == [chunk];
    } else {
      assert (chunks + [chunk])[1..] == chunks[1..] + [chunk];
      FlattenAppend(chunks[1..], chunk);
    }
  }

  /** The recording of two runs of chunks is the first run's bytes followed
      by the second's. */
  lemma {:induction false} FlattenConcat(first: seq<Blob>, second: seq<Blob>)
    ensures Flatten(first + second) == Flatten(first) + Flatten(second)
  {
    if first == [] {
      assert [] + second == second;
    } else {
      assert (first + second)[1..] == first[1..] + second;
      FlattenConcat(first[1..], second);
    }
  }

  /** Chunk `k` sits in the recording right after the bytes of the chunks
      delivered before it. */
  lemma {:induction false} FlattenPlacesChunk(chunks: seq<Blob>, k: nat)
    requires k < |chunks|
    ensures TotalSize(chunks[..k]) + |chunks[k].bytes| <= TotalSize(chunks)
    ensures Flatten(chunks)[TotalSize(chunks[..k])..TotalSize(chunks[..k]) + |chunks[k].bytes|] == chunks[k].bytes
  {
    if k == 0 {
      assert chunks[..0] == [];
    } else {
      assert chunks[..k] == [chunks[0]] + chunks[1..][..k - 1];
      assert chunks[..k][1..] == chunks[1..][..k - 1];
      FlattenPlacesChunk(chunks[1..], k - 1);
    }
  }

  /** Two chunks of 100 and 50 bytes make one 150-byte recording, in order. */
  lemma TwoChunkRecording(a: Blob, b: Blob)
    requires |a.bytes| == 100 && |b.bytes| == 50
    ensures FinalizeRecording([a, b]) == Blob(a.bytes + b.bytes, RecordingMimeType)
    ensures |FinalizeRecording([a, b]).bytes| == 150
  {
    FlattenAppend([a], b);
    assert [a] + [b] == [a, b];
    assert Flatten([a]) == a.bytes + Flatten([]);
  }

  /** A session in which no chunk arrived still yields a (silent) recording. */
  lemma EmptyRecording()
    ensures FinalizeRecording([]) == Blob([], RecordingMimeType)
  {
  }

  // ---------------------------------------------------------------------------
  // What the card shows
  // ---------------------------------------------------------------------------

  /** The green check mark and border. */
  predicate IsSuccessScore(score: real): (success: bool)
    ensures success ==> score > PassScore
  {
    score >= SuccessScore
  }

  /** The Next button: a handler was given and the attempt passed. */
  predicate ShowsNextButton(hasOnNext: bool, score: real): (shown: bool)
    ensures shown ==> hasOnNext
    ensures hasOnNext && IsSuccessScore(score) ==> shown
  {
    hasOnNext && score > PassScore
  }

  /** Every score styled as a success also lets the learner move on; scores in
      (70, 80) pass without the success styling; without a handler there is
      never a Next button. */
  lemma ScoreThresholds(score: real)
    ensures IsSuccessScore(score) ==> ShowsNextButton(true, score)
    ensures PassScore < score < SuccessScore ==> ShowsNextButton(true, score) && !IsSuccessScore(score)
    ensures score <= PassScore ==> !ShowsNextButton(true, score) && !IsSuccessScore(score)
    ensures !ShowsNextButton(false, score)
  {
  }

  // ---------------------------------------------------------------------------
  // The component
  // ---------------------------------------------------------------------------

  class WordCardComponent {
    const word: VocabularyWord
    const hasOnNext: bool

    var isRecording: bool
    var isEvaluating: bool
    var isPlayingTTS: bool
    var evaluation: Option<SpeechEvaluation>
    /** `mediaRecorderRef.current` */
    var recorder: Option<Recorder>
    /** `chunksRef.current` */
    var chunks: seq<Blob>
    /** Microphone streams acquired and not yet stopped. */
    var liveStreams: set<StreamId>

    /** The promise of `ondataavailable`'s size check: the chunk list only
        ever holds non-empty chunks. */
    ghost predicate Valid()
      reads this
    {
      forall i :: 0 <= i < |chunks| ==> |chunks[i].bytes| > 0
    }

    /** The record button is offered while there is no evaluation and none is running. */
    predicate ShowsRecordButton()
      reads this
    {
      evaluation.None? && !isEvaluating
    }

    constructor (word: VocabularyWord, hasOnNext: bool)
      ensures Valid()
      ensures this.word == word && this.hasOnNext == hasOnNext
      ensures !isRecording && !isEvaluating && !isPlayingTTS
      ensures evaluation == None && recorder == None && chunks == [] && liveStreams == {}
    {
      this.word := word;
      this.hasOnNext := hasOnNext;
      isRecording, isEvaluating, isPlayingTTS := false, false, false;
      evaluation, recorder, chunks, liveStreams := None, None, [], {};
    }

    /** `startRecording`: clears the evaluation, acquires the microphone, makes
        a recorder, resets the chunk list and starts; `isRecording` is set only
        once `start()` has returned. Returns false when it alerted instead. */
    method StartRecording(outcome: StartOutcome) returns (ok: bool)
      requires Valid()
      modifies this
      ensures Valid()
      ensures ok <==> outcome.Started?
      ensures evaluation == None
      ensures isRecording == (old(isRecording) || ok)
      ensures liveStreams == if outcome.DeviceDenied? then old(liveStreams) else old(liveStreams) + {outcome.stream}
      ensures outcome.DeviceDenied? || outcome.RecorderRejected? ==>
        recorder == old(recorder) && chunks == old(chunks)
      ensures outcome.StartRejected? || outcome.Started? ==>
        recorder == Some(Recorder(outcome.stream, if ok then Recording else Inactive)) && chunks == []
      ensures isEvaluating == old(isEvaluating) && isPlayingTTS == old(isPlayingTTS)
    {
      evaluation := None;
      match outcome
      case DeviceDenied =>
        ok := false;
      case RecorderRejected(stream) =>
        liveStreams := liveStreams + {stream};
        ok := false;
      case StartRejected(stream) =>
        liveStreams := liveStreams + {stream};
        recorder := Some(Recorder(stream, Inactive));
        chunks := [];
        ok := false;
      case Started(stream) =>
        liveStreams := liveStreams + {stream};
        recorder := Some(Recorder(stream, Inactive));
        chunks := [];
        // mediaRecorder.start()
        recorder := Some(Recorder(stream, Recording));
        isRecording := true;
        ok := true;
    }

    /** `ondataavailable`: an empty chunk is dropped, any other is appended. */
    method OnDataAvailable(data: Blob)
      requires Valid()
      modifies this
      ensures Valid()
      ensures chunks == if |data.bytes| > 0 then old(chunks) + [data] else old(chunks)
      ensures FinalizeRecording(chunks).bytes == FinalizeRecording(old(chunks)).bytes + data.bytes
      ensures isRecording == old(isRecording) && isEvaluating == old(isEvaluating)
      ensures isPlayingTTS == old(isPlayingTTS) && evaluation == old(evaluation)
      ensures recorder == old(recorder) && liveStreams == old(liveStreams)
    {
      if |data.bytes| > 0 {
        FlattenAppend(chunks, data);
        chunks := chunks + [data];
      }
    }

    /** The recorder firing `ondataavailable` once for each chunk of
        `delivered`, in order: the chunk list gains exactly the non-empty ones,
        so the recording gains every delivered byte. */
    method ReceiveChunks(delivered: seq<Blob>)
      requires Valid()
      modifies this
      ensures Valid()
      ensures chunks == old(chunks) + NonEmpty(delivered)
      ensures Flatten(chunks) == Flatten(old(chunks)) + Flatten(delivered)
      ensures isRecording == old(isRecording) && isEvaluating == old(isEvaluating)
      ensures isPlayingTTS == old(isPlayingTTS) && evaluation == old(evaluation)
      ensures recorder == old(recorder) && liveStreams == old(liveStreams)
    {
      for j := 0 to |delivered|
        invariant Valid()
        invariant chunks == old(chunks) + NonEmpty(delivered[..j])
        invariant isRecording == old(isRecording) && isEvaluating == old(isEvaluating)
        invariant isPlayingTTS == old(isPlayingTTS) && evaluation == old(evaluation)
        invariant recorder == old(recorder) && liveStreams == old(liveStreams)
      {
        NonEmptyStep(old(chunks), delivered, j);
        OnDataAvailable(delivered[j]);
      }
      assert delivered[..|delivered|] == delivered;
      KeptChunksBytes(old(chunks), delivered);
    }

    /** `stopRecording`: acts only when a recorder exists and `isRecording`
        holds. Returns whether the recorder was recording, so that its
        `onstop` will fire. */
    method StopRecording() returns (flushes: bool)
      requires Valid()
      modifies this
      ensures Valid()
      ensures old(recorder.Some? && isRecording) ==>
        !isRecording &&
        recorder == Some(old(recorder).value.(state := Inactive)) &&
        flushes == (old(recorder).value.state == Recording)
      ensures !old(recorder.Some? && isRecording) ==>
        !flushes && isRecording == old(isRecording) && recorder == old(recorder)
      ensures chunks == old(chunks) && liveStreams == old(liveStreams) && evaluation == old(evaluation)
      ensures isEvaluating == old(isEvaluating) && isPlayingTTS == old(isPlayingTTS)
    {
      flushes := false;
      if recorder.Some? && isRecording {
        flushes := recorder.value.state == Recording;
        recorder := Some(recorder.value.(state := Inactive));
        isRecording := false;
      }
    }

    /** `handleEvaluation`: sends the recording with its header removed, keeps
        the result only if the call succeeds, and is no longer evaluating
        afterwards either way. Returns the audio data that was sent. */
    method HandleEvaluation(audioBase64: string, result: Option<SpeechEvaluation>) returns (sent: string)
      requires Valid()
      modifies this
      ensures Valid()
      ensures sent == GeminiService.StripAudioHeader(audioBase64)
      ensures !isEvaluating
      ensures evaluation == if result.Some? then result else old(evaluation)
      ensures isRecording == old(isRecording) && isPlayingTTS == old(isPlayingTTS)
      ensures recorder == old(recorder) && chunks == old(chunks) && liveStreams == old(liveStreams)
    {
      isEvaluating := true;
      sent := GeminiService.StripAudioHeader(audioBase64);
      if result.Some? {
        evaluation := result;
      }
      isEvaluating := false;
    }

    /** `onstop` of the recorder that recorded `stream`: the chunks become one
        `audio/webm` blob; only if its conversion to a data URI succeeds is the
        evaluation started and the stream released. */
    method OnStop(stream: StreamId, dataUri: Option<string>, result: Option<SpeechEvaluation>)
      returns (blob: Blob, sent: Option<string>)
      requires Valid()
      modifies this
      ensures Valid()
      ensures blob == FinalizeRecording(old(chunks))
      ensures dataUri.None? ==>
        sent.None? && liveStreams == old(liveStreams) &&
        evaluation == old(evaluation) && isEvaluating == old(isEvaluating)
      ensures dataUri.Some? ==>
        sent == Some(GeminiService.StripAudioHeader(dataUri.value)) &&
        liveStreams == old(liveStreams) - {stream} &&
        !isEvaluating && evaluation == (if result.Some? then result else old(evaluation))
      ensures chunks == old(chunks) && recorder == old(recorder)
      ensures isRecording == old(isRecording) && isPlayingTTS == old(isPlayingTTS)
    {
      blob := FinalizeRecording(chunks);
      sent := None;
      if dataUri.Some? {
        var payload := HandleEvaluation(dataUri.value, result);
        sent := Some(payload);
        liveStreams := liveStreams - {stream};
      }
    }

    /** `handlePlayTTS`: ignored while a playback request is in flight;
        otherwise asks for speech, plays what comes back if anything, and is
        no longer playing afterwards whatever happened. */
    method HandlePlayTTS(response: Result<GeminiService.TtsResponse, CallError>,
                         atob: string -> Option<string>, elementPlays: bool)
      returns (played: Option<AudioUtils.Playback>)
      requires Valid()
      modifies this
      ensures Valid()
      ensures old(isPlayingTTS) ==> played.None? && isPlayingTTS
      ensures !old(isPlayingTTS) ==> !isPlayingTTS
      ensures !old(isPlayingTTS) ==>
        played == match GeminiService.GenerateTTS(response)
                  case None => None
                  case Some(audio) => Some(AudioUtils.PlaybackOf(audio, atob, elementPlays))
      ensures isRecording == old(isRecording) && isEvaluating == old(isEvaluating)
      ensures evaluation == old(evaluation) && recorder == old(recorder)
      ensures chunks == old(chunks) && liveStreams == old(liveStreams)
    {
      played := None;
      if isPlayingTTS {
        return;
      }
      isPlayingTTS := true;
      var audioData := GeminiService.GenerateTTS(response);
      if audioData.Some? {
        var outcome := AudioUtils.PlayBase64Audio(audioData.value, atob, elementPlays);
        played := Some(outcome);
      }
      isPlayingTTS := false;
    }

    /** The Try Again link: drops the evaluation. */
    method TryAgain()
      requires Valid()
      modifies this
      ensures Valid()
      ensures evaluation == None && ShowsRecordButton() == !isEvaluating
      ensures isRecording == old(isRecording) && isEvaluating == old(isEvaluating)
      ensures isPlayingTTS == old(isPlayingTTS) && recorder == old(recorder)
      ensures chunks == old(chunks) && liveStreams == old(liveStreams)
    {
      evaluation := None;
    }
  }

  /** The chunks of `delivered` that are not empty, in order. */
  function NonEmpty(delivered: seq<Blob>): (kept: seq<Blob>)
    ensures |kept| <= |delivered|
    ensures forall i :: 0 <= i < |kept| ==> |kept[i].bytes| > 0
    ensures forall b :: b in kept <==> b in delivered && |b.bytes| > 0
  {
    if delivered == [] then []
    else if |delivered[|delivered| - 1].bytes| > 0 then
      NonEmpty(delivered[..|delivered| - 1]) + [delivered[|delivered| - 1]]
    else NonEmpty(delivered[..|delivered| - 1])
  }

  /** Dropping empty chunks loses no audio: the recording made of the kept
      chunks holds every delivered byte, in delivery order. */
  lemma {:induction false} NonEmptyKeepsAllBytes(delivered: seq<Blob>)
    ensures Flatten(NonEmpty(delivered)) == Flatten(delivered)
  {
    if delivered != [] {
      var n := |delivered| - 1;
      var init, last := delivered[..n], delivered[n];
      assert delivered == init + [last];
      NonEmptyKeepsAllBytes(init);
      FlattenAppend(init, last);
      if |last.bytes| > 0 {
        FlattenAppend(NonEmpty(init), last);
      } else {
        assert last.bytes == [];
      }
    }
  }

  /** One more delivery: the chunk is kept at the end exactly when it is not
      empty. */
  lemma NonEmptyStep(chunks: seq<Blob>, delivered: seq<Blob>, j: nat)
    requires j < |delivered|
    ensures chunks + NonEmpty(delivered[..j + 1]) ==
      if |delivered[j].bytes| > 0 then chunks + NonEmpty(delivered[..j]) + [delivered[j]]
      else chunks + NonEmpty(delivered[..j])
  {
    assert delivered[..j + 1][..j] == delivered[..j];
  }

  /** Appending the kept chunks of a delivery run to a recording adds every
      delivered byte to its end. */
  lemma KeptChunksBytes(chunks: seq<Blob>, delivered: seq<Blob>)
    ensures Flatten(chunks + NonEmpty(delivered)) == Flatten(chunks) + Flatten(delivered)
  {
    FlattenConcat(chunks, NonEmpty(delivered));
    NonEmptyKeepsAllBytes(delivered);
  }

  /** Filtering keeps delivery order: the chunks kept from two runs of
      deliveries are those of the first run followed by those of the second. */
  lemma {:induction false} NonEmptyConcat(first: seq<Blob>, second: seq<Blob>)
    ensures NonEmpty(first + second) == NonEmpty(first) + NonEmpty(second)
  {
    if second != [] {
      var n := |second| - 1;
      var init, last := second[..n], second[n];
      assert second == init + [last];
      assert (first + second)[..|first + second| - 1] == first + init;
      NonEmptyConcat(first, init);
    } else {
      assert first + second == first;
    }
  }
}
