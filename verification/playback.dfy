/** The playback scheduler of the voice call (pages/AgentChat.tsx): every
    inbound audio payload is decoded and started at the later of the audio
    clock's current time and a cursor, and the cursor then moves to the end
    of that buffer. Times are seconds on the audio clock, as `real`. */
module Playback {
  import opened Wrappers
  import opened Bytes
  import Pcm
  import Base64

  /** Where one buffer was placed and where the cursor stands afterwards. */
  datatype Placement = Placement(start: real, cursor: real)

  /** `cursor = max(now, cursor); source.start(cursor); cursor += duration`. */
  function Schedule(cursor: real, now: real, duration: real): (p: Placement)
    requires duration >= 0.0
    ensures p.start >= now && p.start >= cursor
    ensures p.start == now || p.start == cursor
    ensures p.cursor - p.start == duration
    ensures p.cursor >= cursor
  {
    var start := if now > cursor then now else cursor;
    Placement(start, start + duration)
  }

  /** One inbound audio payload: base64 text to bytes, bytes to samples,
      samples placed on the timeline. A payload that is not base64, has an
      odd number of bytes or holds no sample is dropped (`None`): the
      exception it raises ends that message's handler before anything is
      scheduled. */
  function PlayPayload(cursor: real, now: real, payload: string): (r: Option<Placement>)
    ensures r.Some? ==> r.value.start >= now && r.value.start >= cursor
    ensures r.Some? ==> r.value.start == now || r.value.start == cursor
    ensures r.Some? ==> r.value.cursor > r.value.start
    ensures r.Some? <==>
      && Base64.Base64ToBytes(payload).Success?
      && Pcm.DecodeAudioData(Base64.Base64ToBytes(payload).value).Success?
    ensures r.Some? ==>
      r.value.cursor - r.value.start
        == Pcm.Duration(Pcm.DecodeAudioData(Base64.Base64ToBytes(payload).value).value)
  {
    match Base64.Base64ToBytes(payload)
    case Failure(_) => None
    case Success(bytes) =>
      match Pcm.DecodeAudioData(bytes)
      case Failure(_) => None
      case Success(samples) => Some(Schedule(cursor, now, Pcm.Duration(samples)))
  }

  /** The bytes of a whole number of samples, sent through the transport
      encoding, are always played: exactly `|bytes| / 2` samples long. */
  lemma EvenPayloadIsPlayed(cursor: real, now: real, bytes: seq<Byte>)
    requires |bytes| > 0 && |bytes| % 2 == 0
    ensures var r := PlayPayload(cursor, now, Base64.ArrayBufferToBase64(bytes));
      && r.Some?
      && r.value.cursor - r.value.start == (|bytes| / 2) as real / Pcm.PlaybackRate as real
  {
    Base64.TransportRoundTrip(bytes);
  }

  /** Where the transport's encoding of a whole number of samples is
      placed: at the later of the clock reading and the cursor, for
      `|bytes| / 2` samples. */
  lemma EvenPayloadPlacement(cursor: real, now: real, bytes: seq<Byte>)
    requires |bytes| > 0 && |bytes| % 2 == 0
    ensures Base64.ArrayBufferToBase64(bytes) != ""
    ensures var r := PlayPayload(cursor, now, Base64.ArrayBufferToBase64(bytes));
      && r.Some?
      && r.value.start == (if now > cursor then now else cursor)
      && r.value.cursor == r.value.start + (|bytes| / 2) as real / Pcm.PlaybackRate as real
  {
    NonEmptyPayload(bytes);
    EvenPayloadIsPlayed(cursor, now, bytes);
  }

  lemma NonEmptyPayload(bytes: seq<Byte>)
    requires |bytes| > 0
    ensures Base64.ArrayBufferToBase64(bytes) != ""
  {
    assert |Base64.ArrayBufferToBase64(bytes)| == 4 * Base64.Quanta(|bytes|) >= 4;
  }

  /** An odd number of bytes is never played, whatever the clock says. */
  lemma OddPayloadIsDropped(cursor: real, now: real, bytes: seq<Byte>)
    requires |bytes| % 2 == 1
    ensures PlayPayload(cursor, now, Base64.ArrayBufferToBase64(bytes)).None?
  {
    Base64.TransportRoundTrip(bytes);
  }

  // ---------------------------------------------------------------------
  // Sequences of arrivals
  // ---------------------------------------------------------------------

  /** A buffer of the given duration arriving when the clock reads `now`. */
  datatype Arrival = Arrival(now: real, duration: real)

  predicate Valid(arrivals: seq<Arrival>) {
    forall i :: 0 <= i < |arrivals| ==> arrivals[i].duration >= 0.0
  }

  /** Start times given to a sequence of arrivals, in arrival order, and
      the final cursor. */
  datatype Timeline = Timeline(starts: seq<real>, cursor: real)

  function Run(cursor: real, arrivals: seq<Arrival>): (t: Timeline)
    requires Valid(arrivals)
    ensures |t.starts| == |arrivals|
    decreases |arrivals|
  {
    if |arrivals| == 0 then Timeline([], cursor)
    else
      var p := Schedule(cursor, arrivals[0].now, arrivals[0].duration);
      var rest := Run(p.cursor, arrivals[1..]);
      Timeline([p.start] + rest.starts, rest.cursor)
  }

  /** The cursor never moves backwards, every buffer starts no earlier than
      its arrival and no earlier than the cursor it found, and consecutive
      buffers never overlap: each starts at or after the end of the one
      before. */
  lemma {:induction false} RunOrdered(cursor: real, arrivals: seq<Arrival>)
    requires Valid(arrivals)
    ensures var t := Run(cursor, arrivals);
      && t.cursor >= cursor
      && (forall i :: 0 <= i < |arrivals| ==> t.starts[i] >= arrivals[i].now)
      && (|arrivals| > 0 ==> t.starts[0] >= cursor)
      && (forall i :: 0 <= i < |arrivals| - 1 ==>
            t.starts[i + 1] >= t.starts[i] + arrivals[i].duration)
      && (|arrivals| > 0 ==>
            t.cursor >= t.starts[|arrivals| - 1] + arrivals[|arrivals| - 1].duration)
    decreases |arrivals|
  {
    if |arrivals| > 0 {
      var p := Schedule(cursor, arrivals[0].now, arrivals[0].duration);
      RunOrdered(p.cursor, arrivals[1..]);
    }
  }

  /** A buffer that arrives before the previous one has finished playing
      starts exactly when it finishes: no gap. */
  lemma {:induction false} RunGapless(cursor: real, arrivals: seq<Arrival>, i: nat)
    requires Valid(arrivals)
    requires i + 1 < |arrivals|
    requires var t := Run(cursor, arrivals);
      arrivals[i + 1].now <= t.starts[i] + arrivals[i].duration
    ensures var t := Run(cursor, arrivals);
      t.starts[i + 1] == t.starts[i] + arrivals[i].duration
    decreases i
  {
    var p := Schedule(cursor, arrivals[0].now, arrivals[0].duration);
    if i > 0 {
      RunGapless(p.cursor, arrivals[1..], i - 1);
    }
  }

  /** Sum of the first `n` durations. */
  function Elapsed(arrivals: seq<Arrival>, n: nat): real
    requires n <= |arrivals|
  {
    if n == 0 then 0.0 else Elapsed(arrivals, n - 1) + arrivals[n - 1].duration
  }

  predicate SameClock(arrivals: seq<Arrival>, now: real) {
    forall i :: 0 <= i < |arrivals| ==> arrivals[i].now == now
  }

  /** A burst: buffers arriving while the clock stands still are laid end
      to end from a common origin `t0 = max(now, cursor)`, the k-th
      starting after the durations of the k buffers before it, and the
      cursor ending after all of them. */
  lemma {:induction false} BurstBackToBack(cursor: real, now: real, arrivals: seq<Arrival>)
    requires Valid(arrivals) && SameClock(arrivals, now)
    ensures var t0 := if now > cursor then now else cursor;
      var t := Run(cursor, arrivals);
      && (forall k :: 0 <= k < |arrivals| ==> t.starts[k] == t0 + Elapsed(arrivals, k))
      && (|arrivals| > 0 ==> t.cursor == t0 + Elapsed(arrivals, |arrivals|))
    decreases |arrivals|
  {
    var t0 := if now > cursor then now else cursor;
    if |arrivals| > 0 {
      var p := Schedule(cursor, now, arrivals[0].duration);
      var rest := arrivals[1..];
      BurstBackToBack(p.cursor, now, rest);
      assert p.cursor >= now;
      forall k | 0 <= k <= |rest|
        ensures Elapsed(arrivals, k + 1) == arrivals[0].duration + Elapsed(rest, k)
      {
        ElapsedShift(arrivals, k);
      }
    }
  }

  lemma {:induction false} ElapsedShift(arrivals: seq<Arrival>, k: nat)
    requires k + 1 <= |arrivals|
    ensures Elapsed(arrivals, k + 1) == arrivals[0].duration + Elapsed(arrivals[1..], k)
    decreases k
  {
    if k > 0 {
      ElapsedShift(arrivals, k - 1);
    }
  }
}
