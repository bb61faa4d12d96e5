/** The PCM codec of the voice call (pages/AgentChat.tsx): microphone
    samples are clamped to [-1, 1], scaled to 16-bit signed integers and laid
    out little-endian, two bytes per sample; inbound audio bytes are read
    back as 16-bit integers and divided by 32768.

    Samples are exact `real`s (single-precision rounding is not modelled).
    Storing into an `Int16Array` performs the ECMAScript ToInt16
    conversion, truncation toward zero followed by reduction modulo 2^16;
    both steps are written out so that the absence of wrap-around is a
    proved fact rather than an assumption. */
module Pcm {
  import opened Wrappers
  import opened Bytes

  const Int16Min: int := -32768
  const Int16Max: int := 32767
  /** Scale for negative samples (0x8000) and for the decoder. */
  const NegScale: real := 32768.0
  /** Scale for non-negative samples (0x7FFF). */
  const PosScale: real := 32767.0
  /** Sample rate of inbound (playback) audio. */
  const PlaybackRate: nat := 24000

  predicate IsInt16(v: int) {
    Int16Min <= v <= Int16Max
  }

  // ---------------------------------------------------------------------
  // Encoding
  // ---------------------------------------------------------------------

  /** `Math.max(-1, Math.min(1, x))`. */
  function Clamp(x: real): (c: real)
    ensures -1.0 <= c <= 1.0
    ensures -1.0 <= x <= 1.0 ==> c == x
    ensures x > 1.0 ==> c == 1.0
    ensures x < -1.0 ==> c == -1.0
  {
    if x > 1.0 then 1.0 else if x < -1.0 then -1.0 else x
  }

  /** Truncation toward zero, the first half of ToInt16. */
  function Trunc(y: real): (n: int)
    ensures y >= 0.0 ==> n as real <= y < n as real + 1.0
    ensures y < 0.0 ==> n as real - 1.0 < y <= n as real
  {
    if y >= 0.0 then y.Floor else -((-y).Floor)
  }

  /** Reduction modulo 2^16 into the signed range, the second half of ToInt16. */
  function Wrap16(n: int): (v: int)
    ensures IsInt16(v)
    ensures (v - n) % 65536 == 0
  {
    var m := n % 65536;
    if m >= 32768 then m - 65536 else m
  }

  lemma Wrap16OfInt16(n: int)
    requires IsInt16(n)
    ensures Wrap16(n) == n
  {
  }

  /** `output[i] = s < 0 ? s * 0x8000 : s * 0x7FFF` with `s` the clamped
      sample, including the conversion the typed-array store performs. */
  function SampleToInt16(x: real): int {
    var s := Clamp(x);
    Wrap16(Trunc(if s < 0.0 then s * NegScale else s * PosScale))
  }

  /** The scaled, truncated sample already lies in the 16-bit range, so the
      modulo step of the store never changes it: no wrap-around. The value
      is within one unit of the scaled sample, on the side of zero. */
  lemma SampleToInt16Spec(x: real)
    ensures var s := Clamp(x);
      var v := SampleToInt16(x);
      && IsInt16(v)
      && v == Trunc(if s < 0.0 then s * NegScale else s * PosScale)
      && (s < 0.0 ==> s * NegScale <= v as real < s * NegScale + 1.0 && v <= 0)
      && (s >= 0.0 ==> s * PosScale - 1.0 < v as real <= s * PosScale && v >= 0)
      && (x <= -1.0 ==> v == Int16Min)
      && (x >= 1.0 ==> v == Int16Max)
  {
    var s := Clamp(x);
    var y := if s < 0.0 then s * NegScale else s * PosScale;
    var t := Trunc(y);
    assert -32768.0 <= y <= 32767.0;
    assert IsInt16(t);
    Wrap16OfInt16(t);
  }

  /** Two's-complement little-endian bytes of a 16-bit value. */
  function Int16Bytes(v: int): (b: seq<Byte>)
    requires IsInt16(v)
    ensures |b| == 2
  {
    var u := v % 65536;
    [u % 256, u / 256]
  }

  /** The 16-bit value stored little-endian at sample index `i`, as
      `new Int16Array(bytes.buffer)[i]` reads it. */
  function Int16At(bytes: seq<Byte>, i: nat): (v: int)
    requires 2 * i + 1 < |bytes|
    ensures IsInt16(v)
  {
    var u: int := bytes[2 * i] as int + 256 * bytes[2 * i + 1] as int;
    if u >= 32768 then u - 65536 else u
  }

  lemma Int16BytesRoundTrip(v: int)
    requires IsInt16(v)
    ensures Int16At(Int16Bytes(v), 0) == v
  {
  }

  /** `out` is the PCM encoding of `input`: two bytes per sample, each pair
      holding the converted sample. */
  predicate IsPcmOf(input: seq<real>, out: seq<Byte>) {
    && |out| == 2 * |input|
    && forall i :: 0 <= i < |input| ==> Int16At(out, i) == SampleToInt16(input[i])
  }

  /** The PCM bytes of a block, as one value: byte `j` is byte `j % 2` of
      sample `j / 2`. */
  function EncodeBlock(input: seq<real>): (out: seq<Byte>)
    ensures IsPcmOf(input, out)
  {
    var out := seq(2 * |input|, j requires 0 <= j < 2 * |input| =>
      Int16Bytes(SampleToInt16(input[j / 2]))[j % 2]);
    EncodeBlockIsPcm(input, out);
    out
  }

  lemma EncodeBlockIsPcm(input: seq<real>, out: seq<Byte>)
    requires |out| == 2 * |input|
    requires forall j :: 0 <= j < |out| ==> out[j] == Int16Bytes(SampleToInt16(input[j / 2]))[j % 2]
    ensures IsPcmOf(input, out)
  {
    forall i | 0 <= i < |input|
      ensures Int16At(out, i) == SampleToInt16(input[i])
    {
      var v := SampleToInt16(input[i]);
      SampleToInt16Spec(input[i]);
      Int16BytesRoundTrip(v);
      assert (2 * i) / 2 == i && (2 * i) % 2 == 0;
      assert (2 * i + 1) / 2 == i && (2 * i + 1) % 2 == 1;
      assert out[2 * i] == Int16Bytes(v)[0];
      assert out[2 * i + 1] == Int16Bytes(v)[1];
    }
  }

  /** Two byte pairs that read as the same 16-bit value are the same pair. */
  lemma Int16AtInjective(a: seq<Byte>, b: seq<Byte>, i: nat)
    requires 2 * i + 1 < |a| && 2 * i + 1 < |b|
    requires Int16At(a, i) == Int16At(b, i)
    ensures a[2 * i] == b[2 * i] && a[2 * i + 1] == b[2 * i + 1]
  {
  }

  /** A block has exactly one PCM encoding. */
  lemma IsPcmOfUnique(input: seq<real>, a: seq<Byte>, b: seq<Byte>)
    requires IsPcmOf(input, a) && IsPcmOf(input, b)
    ensures a == b
  {
    forall j | 0 <= j < |a|
      ensures a[j] == b[j]
    {
      Int16AtInjective(a, b, j / 2);
    }
  }

  /** `floatTo16BitPCM`: the loop over the input samples computes the
      block encoding. */
  method FloatTo16BitPcm(input: seq<real>) returns (out: seq<Byte>)
    ensures IsPcmOf(input, out)
    ensures out == EncodeBlock(input)
  {
    out := [];
    var i := 0;
    while i < |input|
      invariant 0 <= i <= |input|
      invariant |out| == 2 * i
      invariant forall k :: 0 <= k < i ==> Int16At(out, k) == SampleToInt16(input[k])
    {
      var v := SampleToInt16(input[i]);
      Int16BytesRoundTrip(v);
      var pair := Int16Bytes(v);
      assert forall k :: 0 <= k < i ==> Int16At(out + pair, k) == Int16At(out, k);
      out := out + pair;
      i := i + 1;
    }
    IsPcmOfUnique(input, out, EncodeBlock(input));
  }

  // ---------------------------------------------------------------------
  // Decoding
  // ---------------------------------------------------------------------

  datatype AudioError =
    /** The byte length is odd, so no Int16Array view can be formed. */
    | MalformedAudio
    /** The payload holds no sample; an audio buffer of length 0 cannot be created. */
    | EmptyAudio

  /** `decodeAudioData` for one channel at 24 kHz: the samples of the
      audio buffer it creates. */
  function DecodeAudioData(bytes: seq<Byte>): (r: Result<seq<real>, AudioError>)
    ensures r.Failure? <==> |bytes| % 2 == 1 || |bytes| == 0
    ensures |bytes| % 2 == 1 ==> r == Failure(MalformedAudio)
    ensures r.Success? ==> |r.value| == |bytes| / 2
    ensures r.Success? ==> forall i :: 0 <= i < |r.value| ==>
      r.value[i] * NegScale == Int16At(bytes, i) as real
    ensures r.Success? ==> forall i :: 0 <= i < |r.value| ==> -1.0 <= r.value[i] < 1.0
  {
    if |bytes| % 2 == 1 then Failure(MalformedAudio)
    else if |bytes| == 0 then Failure(EmptyAudio)
    else Success(seq(|bytes| / 2, i requires 0 <= i < |bytes| / 2 => Int16At(bytes, i) as real / NegScale))
  }

  /** Playback duration, in seconds, of a decoded buffer. */
  function Duration(samples: seq<real>): (d: real)
    ensures d >= 0.0
    ensures d * PlaybackRate as real == |samples| as real
  {
    |samples| as real / PlaybackRate as real
  }

  // ---------------------------------------------------------------------
  // Round trip
  // ---------------------------------------------------------------------

  /** Encoding then decoding gives back the clamped sample up to the
      quantisation error: below it by less than 1/32768 for negative
      samples, above it by less than 2/32768 for positive ones (the
      positive scale is 32767 while the decoder divides by 32768). */
  lemma SampleRoundTrip(x: real)
    ensures var s := Clamp(x);
      var d := SampleToInt16(x) as real / NegScale;
      && (s < 0.0 ==> 0.0 <= d - s < 1.0 / NegScale)
      && (s >= 0.0 ==> 0.0 <= s - d < 2.0 / NegScale)
  {
    SampleToInt16Spec(x);
    var s := Clamp(x);
    var v := SampleToInt16(x) as real;
    if s >= 0.0 {
      assert v <= s * PosScale <= s * NegScale;
      assert s * NegScale - v < s * NegScale - (s * PosScale - 1.0) == s + 1.0 <= 2.0;
    }
  }

  /** Every sample of an encoded, then decoded, block is within 2/32768 of
      the clamped input sample. */
  lemma PcmRoundTrip(input: seq<real>, out: seq<Byte>)
    requires IsPcmOf(input, out)
    requires |input| > 0
    ensures DecodeAudioData(out).Success?
    ensures var d := DecodeAudioData(out).value;
      && |d| == |input|
      && forall i :: 0 <= i < |input| ==>
           -2.0 / NegScale < d[i] - Clamp(input[i]) < 1.0 / NegScale
  {
    var d := DecodeAudioData(out).value;
    forall i | 0 <= i < |input|
      ensures -2.0 / NegScale < d[i] - Clamp(input[i]) < 1.0 / NegScale
    {
      SampleRoundTrip(input[i]);
      assert d[i] == SampleToInt16(input[i]) as real / NegScale;
    }
  }

  /** The one-quantum bound does not hold for positive samples: the sample
      32766.5/32767 encodes to 32766 and decodes to 32766/32768, more than
      1/32768 below it. */
  lemma PositiveRoundTripExceedsOneQuantum()
    ensures var x := 65533.0 / 65534.0;
      x - SampleToInt16(x) as real / NegScale > 1.0 / NegScale
  {
    var x := 65533.0 / 65534.0;
    assert x * PosScale == 32766.5;
    assert Trunc(x * PosScale) == 32766;
    Wrap16OfInt16(32766);
    assert SampleToInt16(x) == 32766;
  }
}
