/** Decoding and playback of base64 audio (utils/audioUtils.ts).

    A payload that starts with `data:audio` is handed to the platform's audio
    element; any other payload is taken to be raw PCM from the speech service:
    base64-decoded by `atob`, its character codes copied into a byte array,
    and the bytes read as signed 16-bit little-endian mono samples at 24000 Hz,
    each divided by 32768. `atob` itself is a parameter of the model. */
module AudioUtils {
  import opened Common

  /** The rate the speech service's raw PCM is recorded at. */
  const DefaultSampleRate: int := 24000

  /** `decodePCM` always builds a mono buffer. */
  const NumChannels: nat := 1

  /** The divisor that maps a signed 16-bit sample into [-1, 1). */
  const Scale: real := 32768.0

  /** The prefix that routes a payload to the audio element. */
  const DataAudioPrefix: string := "data:audio"

  type Int16 = v: int | -32768 <= v < 32768

  datatype PlaybackError =
    | InvalidCharacter  // `atob` rejected the payload
    | RangeError        // an `Int16Array` over an odd number of bytes
    | NotAllowed        // the audio element refused to start

  /** What one call of `playBase64Audio` ends in. Errors are logged, never thrown. */
  datatype Playback =
    | NativeElement(src: string)
    | PcmSource(samples: seq<real>, sampleRate: int)
    | Logged(error: PlaybackError)

  // ---------------------------------------------------------------------------
  // decodeBase64: the character codes of `atob`'s result, one byte each
  // ---------------------------------------------------------------------------

  /** Storing a character code into a `Uint8Array` keeps it modulo 256. */
  function ByteOf(c: char): Byte
  {
    (c as int) % 256
  }

  /** A "binary string" as `atob` returns it: every code is below 256. */
  predicate IsBinaryString(s: string)
  {
    forall i :: 0 <= i < |s| ==> s[i] as int < 256
  }

  /** The bytes `decodeBase64` produces from `atob`'s result. */
  function ByteCodes(binaryString: string): (bytes: seq<Byte>)
    ensures |bytes| == |binaryString|
    ensures IsBinaryString(binaryString) ==>
      forall i :: 0 <= i < |bytes| ==> bytes[i] == binaryString[i] as int
  {
    seq(|binaryString|, i requires 0 <= i < |binaryString| => ByteOf(binaryString[i]))
  }

  /** The binary string whose character codes are `bytes` (`String.fromCharCode`). */
  function BinaryString(bytes: seq<Byte>): (s: string)
    ensures |s| == |bytes| && IsBinaryString(s)
  {
    seq(|bytes|, i requires 0 <= i < |bytes| => bytes[i] as char)
  }

  /** Reading a binary string into bytes loses nothing. */
  lemma BinaryStringRoundTrip(binaryString: string)
    requires IsBinaryString(binaryString)
    ensures BinaryString(ByteCodes(binaryString)) == binaryString
  {
    var r := BinaryString(ByteCodes(binaryString));
    forall i | 0 <= i < |binaryString|
      ensures r[i] == binaryString[i]
    {
      assert ByteCodes(binaryString)[i] == binaryString[i] as int;
    }
  }

  /** Every byte sequence is the image of exactly one binary string. */
  lemma ByteCodesRoundTrip(bytes: seq<Byte>)
    ensures ByteCodes(BinaryString(bytes)) == bytes
  {
  }

  /** `decodeBase64`, after its call to `atob`: a fresh byte array holding the
      character codes of the binary string, filled by a loop. */
  method DecodeBase64(binaryString: string) returns (bytes: array<Byte>)
    ensures fresh(bytes)
    ensures bytes[..] == ByteCodes(binaryString)
  {
    var len := |binaryString|;
    bytes := new Byte[len];
    for i := 0 to len
      invariant forall k :: 0 <= k < i ==> bytes[k] == ByteOf(binaryString[k])
    {
      bytes[i] := ByteOf(binaryString[i]);
    }
  }

  // ---------------------------------------------------------------------------
  // decodePCM: signed 16-bit little-endian samples, normalised
  // ---------------------------------------------------------------------------

  /** The two's-complement value whose low byte is `lo` and high byte is `hi`. */
  function Int16LE(lo: Byte, hi: Byte): (v: Int16)
    ensures (v + 65536) % 65536 == lo + 256 * hi
    ensures v % 256 == lo
    ensures v < 0 <==> hi >= 128
  {
    var u := lo + 256 * hi;
    if u >= 32768 then u - 65536 else u
  }

  /** Sample `i` of an `Int16Array` viewing `bytes` on a little-endian host. */
  function SampleAt(bytes: seq<Byte>, i: nat): (sample: Int16)
    requires 2 * i + 1 < |bytes|
    ensures EncodeInt16LE(sample) == bytes[2 * i..2 * i + 2]
  {
    Int16LE(bytes[2 * i], bytes[2 * i + 1])
  }

  /** The conversion of one sample to a channel value. */
  function Normalize(sample: Int16): (x: real)
    ensures -1.0 <= x < 1.0
    ensures x < 0.0 <==> sample < 0
  {
    sample as real / Scale
  }

  /** The channel data decoded from an even number of bytes. */
  function Samples(bytes: seq<Byte>): (samples: seq<real>)
    requires |bytes| % 2 == 0
    ensures |samples| == |bytes| / 2
    ensures forall i :: 0 <= i < |samples| ==> -1.0 <= samples[i] < 1.0
  {
    seq(|bytes| / 2, i requires 0 <= i < |bytes| / 2 => Normalize(SampleAt(bytes, i)))
  }

  /** The minimum, zero and maximum samples, and the asymmetry between the two ends. */
  lemma NormalizeLandmarks()
    ensures Normalize(-32768) == -1.0
    ensures Normalize(0) == 0.0
    ensures Normalize(32767) == 32767.0 / 32768.0
    ensures 0.999 < Normalize(32767) < 1.0
  {
  }

  /** Distinct samples give distinct channel values, in the same order. */
  lemma NormalizeStrictlyMonotonic(a: Int16, b: Int16)
    requires a < b
    ensures Normalize(a) < Normalize(b)
  {
  }

  /** The little-endian two's-complement bytes of a sample. */
  function EncodeInt16LE(v: Int16): (b: seq<Byte>)
    ensures |b| == 2 && Int16LE(b[0], b[1]) == v
  {
    var u := if v < 0 then v + 65536 else v;
    [u % 256, u / 256]
  }

  /** Raw PCM holding `samples`, two bytes each, low byte first. */
  function EncodePcm(samples: seq<Int16>): (bytes: seq<Byte>)
    ensures |bytes| == 2 * |samples|
  {
    if samples == [] then [] else EncodeInt16LE(samples[0]) + EncodePcm(samples[1..])
  }

  lemma {:induction false} EncodePcmSampleAt(samples: seq<Int16>, i: nat)
    requires i < |samples|
    ensures SampleAt(EncodePcm(samples), i) == samples[i]
  {
    var bytes := EncodePcm(samples);
    var head := EncodeInt16LE(samples[0]);
    assert bytes == head + EncodePcm(samples[1..]);
    if i > 0 {
      EncodePcmSampleAt(samples[1..], i - 1);
      assert bytes[2 * i] == EncodePcm(samples[1..])[2 * (i - 1)];
      assert bytes[2 * i + 1] == EncodePcm(samples[1..])[2 * (i - 1) + 1];
    }
  }

  /** Decoding raw PCM gives back the normalised samples it was made from. */
  lemma DecodeEncodedPcm(samples: seq<Int16>)
    ensures |Samples(EncodePcm(samples))| == |samples|
    ensures forall i :: 0 <= i < |samples| ==> Samples(EncodePcm(samples))[i] == Normalize(samples[i])
  {
    var bytes := EncodePcm(samples);
    forall i | 0 <= i < |samples|
      ensures Samples(bytes)[i] == Normalize(samples[i])
    {
      EncodePcmSampleAt(samples, i);
    }
  }

  /** One second of a square wave at +16000 / -16000 decodes to 24000 samples
      alternating between 0.48828125 and -0.48828125. */
  lemma SquareWaveSecond()
    ensures var wave := seq(24000, i requires 0 <= i < 24000 => if i % 2 == 0 then 16000 else -16000);
      |EncodePcm(wave)| == 48000 &&
      |Samples(EncodePcm(wave))| == 24000 &&
      forall i :: 0 <= i < 24000 ==>
        Samples(EncodePcm(wave))[i] == if i % 2 == 0 then 0.48828125 else -0.48828125
  {
    var wave: seq<Int16> := seq(24000, i requires 0 <= i < 24000 => if i % 2 == 0 then 16000 else -16000);
    DecodeEncodedPcm(wave);
  }

  /** `decodePCM`: the outcome of `new Int16Array(data.buffer)`, as a value. */
  function DecodedSamples(bytes: seq<Byte>): (r: Result<seq<real>, PlaybackError>)
    ensures r.Failure? <==> |bytes| % 2 != 0
    ensures r.Failure? ==> r.error == RangeError
    ensures r.Success? ==> (|r.value| == |bytes| / 2 &&
      forall i :: 0 <= i < |r.value| ==> r.value[i] == Normalize(SampleAt(bytes, i)))
  {
    if |bytes| % 2 != 0 then Failure(RangeError) else Success(Samples(bytes))
  }

  /** The platform audio buffer: fixed channel count, length and rate, one
      array of samples per channel. */
  class AudioBuffer {
    const numberOfChannels: nat
    const length: nat
    const sampleRate: int
    const channels: seq<array<real>>

    ghost predicate Valid()
      reads this
    {
      |channels| == numberOfChannels &&
      (forall c :: 0 <= c < |channels| ==> channels[c].Length == length) &&
      (forall c, d :: 0 <= c < d < |channels| ==> channels[c] != channels[d])
    }

    /** `AudioContext.createBuffer`. */
    constructor (numberOfChannels: nat, length: nat, sampleRate: int)
      ensures Valid()
      ensures this.numberOfChannels == numberOfChannels && this.length == length
      ensures this.sampleRate == sampleRate
      ensures forall c :: 0 <= c < numberOfChannels ==> fresh(channels[c])
    {
      var cs: seq<array<real>> := [];
      while |cs| < numberOfChannels
        invariant |cs| <= numberOfChannels
        invariant forall c :: 0 <= c < |cs| ==> fresh(cs[c]) && cs[c].Length == length
        invariant forall c, d :: 0 <= c < d < |cs| ==> cs[c] != cs[d]
      {
        var a := new real[length](_ => 0.0);
        cs := cs + [a];
      }
      this.numberOfChannels := numberOfChannels;
      this.length := length;
      this.sampleRate := sampleRate;
      channels := cs;
    }

    /** `AudioBuffer.getChannelData`. */
    function GetChannelData(channel: nat): (data: array<real>)
      requires Valid() && channel < numberOfChannels
      reads this
      ensures data.Length == length
    {
      channels[channel]
    }
  }

  /** `decodePCM`: reads `data` as 16-bit samples and writes each, divided by
      32768, into channel 0 of a new buffer. An odd byte count throws. */
  method DecodePCM(data: array<Byte>, sampleRate: int := DefaultSampleRate)
    returns (r: Result<AudioBuffer, PlaybackError>)
    ensures r.Failure? <==> data.Length % 2 != 0
    ensures r.Failure? ==> r.error == RangeError
    ensures r.Success? ==>
      fresh(r.value) && r.value.Valid() &&
      r.value.numberOfChannels == NumChannels &&
      r.value.length == data.Length / 2 &&
      r.value.sampleRate == sampleRate &&
      fresh(r.value.channels[0]) &&
      Success(r.value.channels[0][..]) == DecodedSamples(data[..])
  {
    var numChannels := NumChannels;
    if data.Length % 2 != 0 {
      return Failure(RangeError);
    }
    var frameCount := (data.Length / 2) / numChannels;
    var buffer := new AudioBuffer(numChannels, frameCount, sampleRate);
    for channel := 0 to numChannels
      invariant forall c, i :: 0 <= c < channel && 0 <= i < frameCount ==>
        buffer.channels[c][i] == Normalize(SampleAt(data[..], i * numChannels + c))
    {
      var channelData := buffer.GetChannelData(channel);
      for i := 0 to frameCount
        invariant forall k :: 0 <= k < i ==>
          channelData[k] == Normalize(SampleAt(data[..], k * numChannels + channel))
      {
        channelData[i] := Normalize(SampleAt(data[..], i * numChannels + channel));
      }
    }
    assert buffer.channels[0][..] == Samples(data[..]);
    r := Success(buffer);
  }

  // ---------------------------------------------------------------------------
  // playBase64Audio: dispatch on the payload's prefix
  // ---------------------------------------------------------------------------

  /** What `playBase64Audio(payload)` does, given what `atob` returns for it and
      whether the audio element agrees to play. */
  function PlaybackOf(payload: string, atob: string -> Option<string>, elementPlays: bool): (p: Playback)
    ensures p.NativeElement? <==> StartsWith(payload, DataAudioPrefix) && elementPlays
    ensures p.NativeElement? ==> p.src == payload
    ensures p.PcmSource? ==> !StartsWith(payload, DataAudioPrefix) && p.sampleRate == DefaultSampleRate
    ensures p.PcmSource? ==> forall i :: 0 <= i < |p.samples| ==> -1.0 <= p.samples[i] < 1.0
  {
    if StartsWith(payload, DataAudioPrefix) then
      if elementPlays then NativeElement(payload) else Logged(NotAllowed)
    else
      match atob(payload)
      case None => Logged(InvalidCharacter)
      case Some(binaryString) =>
        match DecodedSamples(ByteCodes(binaryString))
        case Failure(e) => Logged(e)
        case Success(samples) => PcmSource(samples, DefaultSampleRate)
  }

  /** `playBase64Audio`. It never throws: every failure ends in `Logged`. */
  method PlayBase64Audio(base64String: string, atob: string -> Option<string>, elementPlays: bool)
    returns (outcome: Playback)
    ensures outcome == PlaybackOf(base64String, atob, elementPlays)
  {
    if StartsWith(base64String, DataAudioPrefix) {
      outcome := if elementPlays then NativeElement(base64String) else Logged(NotAllowed);
      return;
    }
    match atob(base64String)
    case None =>
      outcome := Logged(InvalidCharacter);
    case Some(binaryString) =>
      var bytes := DecodeBase64(binaryString);
      var audioBuffer := DecodePCM(bytes);
      match audioBuffer
      case Failure(e) =>
        outcome := Logged(e);
      case Success(buffer) =>
        var channelData := buffer.GetChannelData(0);
        outcome := PcmSource(channelData[..], buffer.sampleRate);
  }

  /** A `data:audio` payload only ever reaches the audio element: `atob` and the
      PCM decoder play no part in what happens to it. */
  lemma DataUriPlaysNatively(payload: string, atob: string -> Option<string>,
                             otherAtob: string -> Option<string>, elementPlays: bool)
    requires StartsWith(payload, DataAudioPrefix)
    ensures PlaybackOf(payload, atob, elementPlays) == PlaybackOf(payload, otherAtob, elementPlays)
    ensures PlaybackOf(payload, atob, elementPlays) ==
      if elementPlays then NativeElement(payload) else Logged(NotAllowed)
  {
  }

  /** Any other payload never reaches the audio element; it plays as 24000 Hz
      PCM exactly when `atob` accepts it and yields an even number of bytes. */
  lemma RawPayloadTakesPcmPath(payload: string, atob: string -> Option<string>, elementPlays: bool)
    requires !StartsWith(payload, DataAudioPrefix)
    ensures !PlaybackOf(payload, atob, elementPlays).NativeElement?
    ensures PlaybackOf(payload, atob, elementPlays).PcmSource? <==>
      atob(payload).Some? && |atob(payload).value| % 2 == 0
    ensures atob(payload).Some? && |atob(payload).value| % 2 == 0 ==>
      PlaybackOf(payload, atob, elementPlays) ==
        PcmSource(Samples(ByteCodes(atob(payload).value)), DefaultSampleRate)
  {
  }

  /** An odd number of decoded bytes is not truncated: nothing plays and the
      range error is logged. */
  lemma OddLengthPlaysNothing(payload: string, atob: string -> Option<string>, elementPlays: bool)
    requires !StartsWith(payload, DataAudioPrefix)
    requires atob(payload).Some? && |atob(payload).value| % 2 == 1
    ensures PlaybackOf(payload, atob, elementPlays) == Logged(RangeError)
  {
  }

  /** The empty payload takes the PCM path and decodes to no samples. */
  lemma EmptyPayloadIsEmptyPcm(atob: string -> Option<string>, elementPlays: bool)
    requires atob("") == Some("")
    ensures PlaybackOf("", atob, elementPlays) == PcmSource([], DefaultSampleRate)
  {
  }
}
