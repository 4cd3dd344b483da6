/** The local logic of the generative-AI client (services/geminiService.ts):
    the choice of topics prompt, the fallbacks for a missing response text,
    the selection of the synthesised audio out of a speech response, and the
    removal of a data-URI header from a recording before it is sent. The
    remote calls themselves are inputs to these functions. */
module GeminiService {
  import opened Common

  // ---------------------------------------------------------------------------
  // generateTopics: the prompt
  // ---------------------------------------------------------------------------

  const DefaultTopicsPrompt: string :=
    "Generate 6 diverse and engaging vocabulary learning topics ranging from Business to Travel to Daily Life."

  const InterestPromptHead: string :=
    "Generate 6 diverse vocabulary learning topics based on this interest: \""

  const InterestPromptTail: string := "\"."

  /** The prompt `generateTopics(userInterests)` sends. */
  function TopicsPrompt(userInterests: string): (prompt: string)
    ensures userInterests == "" ==> prompt == DefaultTopicsPrompt
    ensures userInterests != "" ==>
      StartsWith(prompt, InterestPromptHead) &&
      |prompt| == |InterestPromptHead| + |userInterests| + |InterestPromptTail| &&
      prompt[|InterestPromptHead|..|InterestPromptHead| + |userInterests|] == userInterests
  {
    if userInterests != "" then InterestPromptHead + userInterests + InterestPromptTail
    else DefaultTopicsPrompt
  }

  /** Different interests give different prompts, and no interest gives the
      default prompt: the prompt determines what was asked for. */
  lemma TopicsPromptInjective(a: string, b: string)
    requires TopicsPrompt(a) == TopicsPrompt(b)
    ensures a == b
  {
    var pa, pb := TopicsPrompt(a), TopicsPrompt(b);
    var h := |InterestPromptHead|;
    if a != "" && b != "" {
      assert |a| == |b|;
      assert a == pa[h..h + |a|] == pb[h..h + |b|] == b;
    }
  }

  // ---------------------------------------------------------------------------
  // Response text fallbacks before JSON.parse
  // ---------------------------------------------------------------------------

  const EmptyList: string := "[]"
  const EmptyObject: string := "{}"

  /** `response.text || fallback`. */
  function ResponseText(text: Option<string>, fallback: string): (json: string)
    ensures Truthy(text) ==> json == text.value
    ensures !Truthy(text) ==> json == fallback
    ensures fallback != "" ==> json != ""
  {
    if Truthy(text) then text.value else fallback
  }

  /** The texts `generateTopics`/`generateVocabulary` and `evaluatePronunciation`
      hand to the parser are never empty; a missing text becomes an empty list
      or an empty object. */
  lemma FallbacksNeverEmpty(text: Option<string>)
    ensures ResponseText(text, EmptyList) != "" && ResponseText(text, EmptyObject) != ""
    ensures ResponseText(None, EmptyList) == "[]" && ResponseText(Some(""), EmptyList) == "[]"
    ensures ResponseText(None, EmptyObject) == "{}" && ResponseText(Some(""), EmptyObject) == "{}"
  {
  }

  // ---------------------------------------------------------------------------
  // generateTTS: the audio in `candidates[0].content.parts[0].inlineData.data`
  // ---------------------------------------------------------------------------

  datatype InlineData = InlineData(data: Option<string>)
  datatype Part = Part(inlineData: Option<InlineData>)
  datatype Content = Content(parts: Option<seq<Part>>)
  datatype Candidate = Candidate(content: Option<Content>)
  datatype TtsResponse = TtsResponse(candidates: Option<seq<Candidate>>)

  /** The optional chain `candidates?.[0]?.content?.parts?.[0]?.inlineData?.data`;
      indexing an empty array yields `undefined`. */
  function InlineAudio(response: TtsResponse): (audio: Option<string>)
    ensures audio.Some? ==>
      response.candidates.Some? && |response.candidates.value| > 0 &&
      response.candidates.value[0].content.Some? &&
      response.candidates.value[0].content.value.parts.Some? &&
      |response.candidates.value[0].content.value.parts.value| > 0 &&
      response.candidates.value[0].content.value.parts.value[0].inlineData == Some(InlineData(audio))
  {
    match response.candidates
    case None => None
    case Some(candidates) =>
      if |candidates| == 0 then None
      else match candidates[0].content
      case None => None
      case Some(content) =>
        match content.parts
        case None => None
        case Some(parts) =>
          if |parts| == 0 then None
          else match parts[0].inlineData
          case None => None
          case Some(inline) => inline.data
  }

  /** `generateTTS`: the inline audio when present and non-empty, `null` when it
      is missing or empty and when the call throws. */
  function GenerateTTS(call: Result<TtsResponse, CallError>): (audio: Option<string>)
    ensures audio.Some? ==> audio.value != ""
    ensures audio.Some? <==> call.Success? && Truthy(InlineAudio(call.value))
    ensures audio.Some? ==> audio == InlineAudio(call.value)
  {
    match call
    case Failure(_) => None
    case Success(response) =>
      var data := InlineAudio(response);
      if Truthy(data) then data else None
  }

  /** A well-formed speech response yields exactly the audio it carries. */
  lemma GenerateTTSOfWellFormedResponse(data: string, moreCandidates: seq<Candidate>, moreParts: seq<Part>)
    requires data != ""
    ensures GenerateTTS(Success(TtsResponse(Some(
      [Candidate(Some(Content(Some([Part(Some(InlineData(Some(data))))] + moreParts))))] + moreCandidates))))
      == Some(data)
  {
  }

  // ---------------------------------------------------------------------------
  // evaluatePronunciation: removing a leading data-URI header
  // ---------------------------------------------------------------------------

  /** The literal start of the pattern `^data:audio\/[a-z]+;base64,`. */
  const AudioUriPrefix: string := "data:audio/"

  /** The literal end of the pattern. */
  const Base64Marker: string := ";base64,"

  predicate IsLowerAscii(c: char)
  {
    'a' <= c <= 'z'
  }

  /** `h` matches `data:audio\/[a-z]+;base64,` in full. */
  predicate IsAudioHeader(h: string): (matches: bool)
    ensures matches ==> StartsWith(h, AudioUriPrefix) && |h| >= 20
    ensures matches ==> h[|h| - |Base64Marker|] == ';' && ';' !in h[..|h| - |Base64Marker|]
  {
    |h| >= |AudioUriPrefix| + 1 + |Base64Marker| &&
    h[..|AudioUriPrefix|] == AudioUriPrefix &&
    h[|h| - |Base64Marker|..] == Base64Marker &&
    forall k :: |AudioUriPrefix| <= k < |h| - |Base64Marker| ==> IsLowerAscii(h[k])
  }

  /** The number of lower-case ASCII letters in `s` from index `i` on. */
  function LowerRun(s: string, i: nat): (n: nat)
    requires i <= |s|
    ensures i + n <= |s|
    ensures forall k :: i <= k < i + n ==> IsLowerAscii(s[k])
    ensures i + n == |s| || !IsLowerAscii(s[i + n])
    decreases |s| - i
  {
    if i < |s| && IsLowerAscii(s[i]) then 1 + LowerRun(s, i + 1) else 0
  }

  /** The length of the header the anchored pattern matches at the start of
      `s`, if it matches. */
  function HeaderLength(s: string): (n: Option<nat>)
    ensures n.Some? ==> n.value <= |s| && IsAudioHeader(s[..n.value])
  {
    if !StartsWith(s, AudioUriPrefix) then None
    else
      var letters := LowerRun(s, |AudioUriPrefix|);
      var end := |AudioUriPrefix| + letters;
      if letters > 0 && StartsWith(s[end..], Base64Marker) then
        assert s[..end + |Base64Marker|][end..] == s[end..][..|Base64Marker|];
        Some(end + |Base64Marker|)
      else None
  }

  /** The pattern finds a header exactly when some prefix of `s` is one. */
  lemma {:induction false} HeaderLengthComplete(s: string, m: nat)
    requires m <= |s| && IsAudioHeader(s[..m])
    ensures HeaderLength(s) == Some(m)
  {
    var h := s[..m];
    var p, b := |AudioUriPrefix|, |Base64Marker|;
    assert s[..p] == h[..p];
    var letters := LowerRun(s, p);
    forall k | p <= k < m - b
      ensures IsLowerAscii(s[k])
    {
      assert s[k] == h[k];
    }
    assert s[m - b] == h[m - b] == ';';
    assert p + letters == m - b;
    assert s[m - b..][..b] == h[m - b..];
  }

  /** At most one prefix of a string is a header. */
  lemma HeaderUnique(s: string, m: nat, n: nat)
    requires m <= |s| && IsAudioHeader(s[..m])
    requires n <= |s| && IsAudioHeader(s[..n])
    ensures m == n
  {
    HeaderLengthComplete(s, m);
    HeaderLengthComplete(s, n);
  }

  /** `audioBase64.replace(/^data:audio\/[a-z]+;base64,/, "")`. */
  function StripAudioHeader(audioBase64: string): (clean: string)
    ensures |clean| <= |audioBase64| && clean == audioBase64[|audioBase64| - |clean|..]
  {
    match HeaderLength(audioBase64)
    case Some(n) => audioBase64[n..]
    case None => audioBase64
  }

  /** The replace removes the one header a string starts with, and otherwise
      leaves the string as it is. */
  lemma StripAudioHeaderSpec(s: string)
    ensures forall m :: 0 <= m <= |s| && IsAudioHeader(s[..m]) ==> StripAudioHeader(s) == s[m..]
    ensures (forall m :: 0 <= m <= |s| ==> !IsAudioHeader(s[..m])) ==> StripAudioHeader(s) == s
    ensures StripAudioHeader(s) != s <==> exists m :: 0 <= m <= |s| && IsAudioHeader(s[..m])
  {
    forall m | 0 <= m <= |s| && IsAudioHeader(s[..m])
      ensures StripAudioHeader(s) == s[m..]
    {
      HeaderLengthComplete(s, m);
    }
  }

  /** The base64 alphabet with its padding. */
  predicate IsBase64Char(c: char)
  {
    'A' <= c <= 'Z' || 'a' <= c <= 'z' || '0' <= c <= '9' || c == '+' || c == '/' || c == '='
  }

  /** `data:audio/<subtype>;base64,` is a header for every lower-case subtype. */
  lemma HeaderOfSubtype(subtype: string)
    requires |subtype| > 0 && forall k :: 0 <= k < |subtype| ==> IsLowerAscii(subtype[k])
    ensures IsAudioHeader(AudioUriPrefix + subtype + Base64Marker)
  {
    var h := AudioUriPrefix + subtype + Base64Marker;
    assert h[..|AudioUriPrefix|] == AudioUriPrefix;
    assert h[|h| - |Base64Marker|..] == Base64Marker;
    forall k | |AudioUriPrefix| <= k < |h| - |Base64Marker|
      ensures IsLowerAscii(h[k])
    {
      assert h[k] == subtype[k - |AudioUriPrefix|];
    }
  }

  /** A header with a lower-case subtype is removed, and only that one: the rest
      is returned as it is, even when it starts with another header. */
  lemma StripHeaderOfSubtype(subtype: string, rest: string)
    requires |subtype| > 0 && forall k :: 0 <= k < |subtype| ==> IsLowerAscii(subtype[k])
    ensures StripAudioHeader(AudioUriPrefix + subtype + Base64Marker + rest) == rest
  {
    var h := AudioUriPrefix + subtype + Base64Marker;
    var s := h + rest;
    HeaderOfSubtype(subtype);
    assert s[..|h|] == h;
    HeaderLengthComplete(s, |h|);
    assert s[|h|..] == rest;
  }

  /** A subtype holding a character other than a lower-case ASCII letter (a
      digit, a hyphen, an upper-case letter) is not matched. */
  lemma OtherSubtypeKept(subtype: string, rest: string)
    requires exists j :: 0 <= j < |subtype| && !IsLowerAscii(subtype[j])
    requires forall k :: 0 <= k < |subtype| ==> subtype[k] != ';'
    ensures StripAudioHeader(AudioUriPrefix + subtype + Base64Marker + rest) ==
      AudioUriPrefix + subtype + Base64Marker + rest
  {
    var s := AudioUriPrefix + subtype + Base64Marker + rest;
    var p := |AudioUriPrefix|;
    var j :| 0 <= j < |subtype| && !IsLowerAscii(subtype[j]);
    assert s[p + j] == subtype[j];
    forall m | 0 <= m <= |s|
      ensures !IsAudioHeader(s[..m])
    {
      var d := m - |Base64Marker|;
      if 0 <= d < m { assert s[..m][d] == s[d]; }
      if p + j < d {
        assert s[..m][p + j] == s[p + j];
      } else if p <= d {
        assert s[d] == subtype[d - p];
      }
    }
    StripAudioHeaderSpec(s);
  }

  /** A lower-case subtype followed by parameters (`;codecs=opus`) is not
      matched, since the letters are followed by something other than
      `;base64,`. */
  lemma ParameterizedHeaderKept(subtype: string, rest: string)
    requires |subtype| > 0 && forall k :: 0 <= k < |subtype| ==> IsLowerAscii(subtype[k])
    requires |rest| > 0 && rest[0] == ';' && !StartsWith(rest, Base64Marker)
    ensures StripAudioHeader(AudioUriPrefix + subtype + rest) == AudioUriPrefix + subtype + rest
  {
    var s := AudioUriPrefix + subtype + rest;
    var p := |AudioUriPrefix|;
    var e := p + |subtype|;
    assert s[e] == ';';
    forall m | 0 <= m <= |s|
      ensures !IsAudioHeader(s[..m])
    {
      var d := m - |Base64Marker|;
      if 0 <= d < m { assert s[..m][d] == s[d]; }
      if p <= d < e {
        assert s[d] == subtype[d - p];
      } else if e < d {
        assert s[..m][e] == s[e];
      } else if d == e {
        assert s[..m][d..] == rest[..|Base64Marker|];
      }
    }
    StripAudioHeaderSpec(s);
  }

  /** Raw base64 has no `:` and so is never stripped. */
  lemma RawBase64Kept(body: string)
    requires forall k :: 0 <= k < |body| ==> IsBase64Char(body[k])
    ensures StripAudioHeader(body) == body
  {
    if |body| >= |AudioUriPrefix| {
      assert body[4] != ':';
      assert body[..|AudioUriPrefix|][4] == body[4];
    }
  }

  /** The data URI the recorder's blob becomes. */
  function WebmDataUri(body: string): string
  {
    AudioUriPrefix + "webm" + Base64Marker + body
  }

  /** The recorder's payload loses exactly its header, and stripping it again
      changes nothing. */
  lemma StripRecordedPayload(body: string)
    requires forall k :: 0 <= k < |body| ==> IsBase64Char(body[k])
    ensures StripAudioHeader(WebmDataUri(body)) == body
    ensures StripAudioHeader(StripAudioHeader(WebmDataUri(body))) == body
  {
    StripHeaderOfSubtype("webm", body);
    RawBase64Kept(body);
  }
}
