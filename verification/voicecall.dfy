/** The live voice call of pages/AgentChat.tsx as a state record advanced
    by events. Device, network and timer callbacks (microphone permission,
    the live session's open/message/close/error callbacks, a captured audio
    block, the end of a played buffer, a one-second tick) are events; the
    audio context, microphone stream, source node, processor node and live
    session are abstract handles numbered as they are acquired. */
module VoiceCall {
  import opened Wrappers
  import opened Bytes
  import Text
  import Pcm
  import Base64
  import Playback

  datatype Status = CONNECTING | CONNECTED | ENDED

  /** The five resources a call holds, in the order teardown releases them. */
  datatype Kind = SessionKind | ProcessorKind | SourceKind | StreamKind | ContextKind

  const Kinds: seq<Kind> := [SessionKind, ProcessorKind, SourceKind, StreamKind, ContextKind]

  /** The five refs of the component; `None` is a cleared ref. */
  datatype Handles = Handles(
    session: Option<nat>,
    processor: Option<nat>,
    source: Option<nat>,
    stream: Option<nat>,
    context: Option<nat>)

  const NoHandles: Handles := Handles(None, None, None, None, None)

  function Handle(h: Handles, k: Kind): Option<nat> {
    match k
    case SessionKind => h.session
    case ProcessorKind => h.processor
    case SourceKind => h.source
    case StreamKind => h.stream
    case ContextKind => h.context
  }

  /** The kinds whose ref is set, in teardown order. */
  function HeldKinds(h: Handles): (ks: seq<Kind>)
    ensures |ks| <= |Kinds|
  {
    HeldAmong(h, Kinds)
  }

  function HeldAmong(h: Handles, ks: seq<Kind>): (r: seq<Kind>)
    ensures |r| <= |ks|
  {
    if |ks| == 0 then []
    else (if Handle(h, ks[0]).Some? then [ks[0]] else []) + HeldAmong(h, ks[1..])
  }

  /** The resources the refs point to. */
  function HeldIds(h: Handles): set<nat> {
    set k | k in Kinds && Handle(h, k).Some? :: Handle(h, k).value
  }

  /** How far the asynchronous connect sequence has got. A connect
      callback is taken only in its own phase: the model follows the
      callbacks of the current connect, not those of one a hang-up or a
      new `startCall` superseded. */
  datatype Phase =
    | Idle
      /** Audio context created, waiting for microphone permission. */
    | AwaitMic
      /** Microphone granted, waiting for the live session. */
    | AwaitSession
      /** The session promise resolved. */
    | SessionReady
      /** Permission refused or the session promise rejected. */
    | Failed

  /** One `sendRealtimeInput` call. */
  datatype Media = Media(mimeType: string, data: string)

  const CaptureMime: string := "audio/pcm;rate=16000"

  datatype Call = Call(
    active: bool,
    status: Status,
    duration: nat,
    muted: bool,
    /** The muted flag as the capture callback sees it: the value current
        when the call was started, captured by the callback's closure. */
    mutedSeen: bool,
    volume: real,
    handles: Handles,
    /** Acquired and not yet released resources. */
    live: set<nat>,
    nextId: nat,
    /** Every release teardown performed, in order. */
    released: seq<Kind>,
    phase: Phase,
    /** Whether `onopen` has run for the current connect. */
    onOpenRan: bool,
    /** The playback cursor, in seconds of the audio clock. */
    cursor: real,
    sent: seq<Media>,
    scheduled: seq<Playback.Placement>,
    /** Contents of the call-summary messages appended to the chat. */
    summaries: seq<string>)

  /** The component as first rendered: the call is active when the page is
      opened in call mode. */
  function Init(callMode: bool): (c: Call)
    ensures c.active == callMode && c.status == CONNECTING && c.duration == 0
    ensures c.handles == NoHandles && c.live == {}
  {
    Call(callMode, CONNECTING, 0, false, false, 0.0, NoHandles, {}, 0, [],
         Idle, false, 0.0, [], [], [])
  }

  datatype Event =
    | StartCall(now: real)
    | MicGranted
    | MicDenied
    | SessionOpened
    | SessionResolved
    | SessionRejected
    | CaptureBlock(samples: seq<real>, level: real)
    | ServerMessage(inlineAudio: Option<string>, now: real)
    | PlaybackEnded
    | SessionClosed
    | SessionError
    | Tick
    | ToggleMute
    | Hangup
    | HangupReset
    | Unmount

  // ---------------------------------------------------------------------
  // Teardown
  // ---------------------------------------------------------------------

  /** `cleanupAudio`: each ref that is set is released and cleared, in the
      order session, processor, source, stream, context. */
  function Cleanup(c: Call): (d: Call)
    ensures d.handles == NoHandles
    ensures d.released == c.released + HeldKinds(c.handles)
    ensures d.live == c.live - HeldIds(c.handles)
    ensures d.(handles := c.handles, live := c.live, released := c.released) == c
  {
    var h := c.handles;
    var r1 := if h.session.Some? then [SessionKind] else [];
    var r2 := if h.processor.Some? then [ProcessorKind] else [];
    var r3 := if h.source.Some? then [SourceKind] else [];
    var r4 := if h.stream.Some? then [StreamKind] else [];
    var r5 := if h.context.Some? then [ContextKind] else [];
    CleanupOrder(h);
    c.(handles := NoHandles,
       live := c.live - HeldIds(h),
       released := c.released + (r1 + (r2 + (r3 + (r4 + r5)))))
  }

  lemma CleanupOrder(h: Handles)
    ensures HeldKinds(h) ==
      (if h.session.Some? then [SessionKind] else [])
      + ((if h.processor.Some? then [ProcessorKind] else [])
      + ((if h.source.Some? then [SourceKind] else [])
      + ((if h.stream.Some? then [StreamKind] else [])
      + (if h.context.Some? then [ContextKind] else []))))
  {
    var k4: seq<Kind> := [ContextKind];
    var k3: seq<Kind> := [StreamKind] + k4;
    var k2: seq<Kind> := [SourceKind] + k3;
    var k1: seq<Kind> := [ProcessorKind] + k2;
    assert Kinds == [SessionKind] + k1;
    HeldAmongStep(h, ContextKind, []);
    assert [ContextKind] + [] == k4;
    HeldAmongStep(h, StreamKind, k4);
    HeldAmongStep(h, SourceKind, k3);
    HeldAmongStep(h, ProcessorKind, k2);
    HeldAmongStep(h, SessionKind, k1);
  }

  lemma HeldAmongStep(h: Handles, k: Kind, ks: seq<Kind>)
    ensures HeldAmong(h, [k] + ks) == (if Handle(h, k).Some? then [k] else []) + HeldAmong(h, ks)
  {
    assert ([k] + ks)[1..] == ks;
  }

  /** Nothing is held once every ref is clear. */
  lemma NothingHeld()
    ensures HeldKinds(NoHandles) == []
    ensures HeldIds(NoHandles) == {}
  {
    CleanupOrder(NoHandles);
  }

  /** A second teardown releases nothing and changes nothing. */
  lemma CleanupIdempotent(c: Call)
    ensures Cleanup(Cleanup(c)) == Cleanup(c)
    ensures Cleanup(Cleanup(c)).released == Cleanup(c).released
  {
    NothingHeld();
  }

  /** Position of a kind in the teardown order. */
  function Rank(k: Kind): nat {
    match k
    case SessionKind => 0
    case ProcessorKind => 1
    case SourceKind => 2
    case StreamKind => 3
    case ContextKind => 4
  }

  /** Strictly in teardown order, hence without repetition. */
  predicate InTeardownOrder(ks: seq<Kind>) {
    forall i, j :: 0 <= i < j < |ks| ==> Rank(ks[i]) < Rank(ks[j])
  }

  /** Keeping the held kinds of a list in teardown order keeps the order
      and keeps exactly the held ones. */
  lemma {:induction false} HeldAmongSpec(h: Handles, ks: seq<Kind>)
    requires InTeardownOrder(ks)
    ensures InTeardownOrder(HeldAmong(h, ks))
    ensures forall k :: k in HeldAmong(h, ks) <==> k in ks && Handle(h, k).Some?
    decreases |ks|
  {
    if |ks| > 0 {
      var rest := HeldAmong(h, ks[1..]);
      HeldAmongSpec(h, ks[1..]);
      forall k | k in rest
        ensures Rank(ks[0]) < Rank(k)
      {
        var j :| 0 <= j < |ks[1..]| && ks[1..][j] == k;
        assert ks[j + 1] == k;
      }
    }
  }

  /** Teardown releases every held resource once, in teardown order, and
      nothing that is not held. */
  lemma CleanupReleasesOnlyHeld(c: Call)
    ensures var d := Cleanup(c);
      var rel := d.released[|c.released|..];
      && InTeardownOrder(rel)
      && forall k :: k in rel <==> Handle(c.handles, k).Some?
  {
    var d := Cleanup(c);
    assert d.released[|c.released|..] == HeldAmong(c.handles, Kinds);
    HeldAmongSpec(c.handles, Kinds);
  }

  // ---------------------------------------------------------------------
  // Capture and playback
  // ---------------------------------------------------------------------

  /** The work the capture callback does for one block of microphone
      samples; `level` is the block's loudness. */
  function Capture(c: Call, samples: seq<real>, level: real): (d: Call)
    ensures c.mutedSeen ==> d == c
    ensures !c.mutedSeen ==> d.volume == level
    ensures !c.mutedSeen && c.handles.session.Some? ==>
      d.sent == c.sent + [Media(CaptureMime, Base64.ArrayBufferToBase64(Pcm.EncodeBlock(samples)))]
    ensures c.handles.session.None? ==> d.sent == c.sent
    ensures d.(volume := c.volume, sent := c.sent) == c
  {
    if c.mutedSeen then c
    else
      var data := Base64.ArrayBufferToBase64(Pcm.EncodeBlock(samples));
      var sent := if c.handles.session.Some? then c.sent + [Media(CaptureMime, data)] else c.sent;
      c.(volume := level, sent := sent)
  }

  /** The volume shown while the agent speaks. */
  const SpeakingLevel: real := 0.5

  /** The message carries a non-empty payload that decodes to audio. */
  predicate Playable(c: Call, inlineAudio: Option<string>, now: real) {
    && inlineAudio.Some? && inlineAudio.value != ""
    && Playback.PlayPayload(c.cursor, now, inlineAudio.value).Some?
  }

  /** The message callback for one server message, given the inline audio
      of its first part. A missing or empty payload is ignored; a payload
      that cannot be decoded ends the handler before anything changes. */
  function Receive(c: Call, inlineAudio: Option<string>, now: real): (d: Call)
    ensures inlineAudio.None? || inlineAudio == Some("") ==> d == c
    ensures d.scheduled == c.scheduled || (|d.scheduled| == |c.scheduled| + 1 && d.scheduled[..|c.scheduled|] == c.scheduled)
    ensures Playable(c, inlineAudio, now) <==> |d.scheduled| == |c.scheduled| + 1
    ensures !Playable(c, inlineAudio, now) ==> d == c
    ensures Playable(c, inlineAudio, now) ==>
      var p := Playback.PlayPayload(c.cursor, now, inlineAudio.value).value;
      d == c.(cursor := p.cursor, volume := SpeakingLevel, scheduled := c.scheduled + [p])
  {
    match inlineAudio
    case None => c
    case Some(payload) =>
      if payload == "" then c
      else
        match Playback.PlayPayload(c.cursor, now, payload)
        case None => c
        case Some(p) =>
          c.(cursor := p.cursor, volume := SpeakingLevel, scheduled := c.scheduled + [p])
  }

  // ---------------------------------------------------------------------
  // Duration display
  // ---------------------------------------------------------------------

  /** `formatDuration`: minutes, a colon, and the seconds on two digits. */
  function FormatDuration(n: nat): (f: string)
    ensures |f| >= 4 && f[|f| - 3] == ':'
  {
    var m := Text.NatToString(n / 60);
    var p := Text.PadStart2(Text.NatToString(n % 60));
    ColonSplit(m, p);
    m + ":" + p
  }

  /** Reading a formatted duration back: it is digits, a colon and two
      digits; the two count seconds below 60, the ones before the colon
      count minutes, and together they give the number of seconds
      formatted. */
  lemma FormatDurationRoundTrip(n: nat) returns (mins: string, secs: string)
    ensures FormatDuration(n) == mins + ":" + secs
    ensures |secs| == 2 && Text.AllDigits(mins) && Text.AllDigits(secs)
    ensures Text.DigitsValue(secs) < 60
    ensures Text.DigitsValue(mins) * 60 + Text.DigitsValue(secs) == n
  {
    var q, r := n / 60, n % 60;
    assert q * 60 + r == n && r < 60;
    mins, secs := Text.ClockReadBack(q, r);
  }

  /** The character three from the end of `m:pp` is the colon. */
  lemma ColonSplit(m: string, p: string)
    requires |p| == 2
    ensures var f := m + ":" + p;
      f[|f| - 3] == ':'
  {
  }

  /** The text before the duration in the hang-up summary, character for
      character as the page spells it: the UTF-8 bytes of a telephone
      emoji and of the accented letters shown as Mac Roman characters. */
  const SummaryLead: string :=
    "\U{F8FF}\U{00FC}\U{00EC}\U{00FB} **Appel termin\U{221A}\U{00A9}**\nDur\U{221A}\U{00A9}e : "

  /** The summary appended to the chat when the user hangs up. */
  function Summary(duration: nat): (m: string)
    ensures Text.StartsWith(m, SummaryLead)
    ensures Text.EndsWith(m, FormatDuration(duration))
  {
    var m := SummaryLead + FormatDuration(duration);
    assert m[..|SummaryLead|] == SummaryLead;
    m
  }

  // ---------------------------------------------------------------------
  // Transitions
  // ---------------------------------------------------------------------

  /** startCall, then the synchronous start of the connect: teardown, a
      fresh audio context, the playback cursor set to the context's clock. */
  function Start(c: Call, now: real): Call {
    var d := Cleanup(c);
    d.(active := true, status := CONNECTING, duration := 0, mutedSeen := c.muted,
       handles := NoHandles.(context := Some(c.nextId)),
       live := d.live + {c.nextId}, nextId := c.nextId + 1,
       phase := AwaitMic, onOpenRan := false, cursor := now)
  }

  /** The microphone stream arrives. */
  function Granted(c: Call): Call {
    if c.phase != AwaitMic then c
    else c.(handles := c.handles.(stream := Some(c.nextId)),
            live := c.live + {c.nextId}, nextId := c.nextId + 1,
            phase := AwaitSession)
  }

  /** The catch of the connect: ENDED, with no teardown. */
  function ConnectFailed(c: Call, during: Phase): Call {
    if c.phase != during then c else c.(status := ENDED, phase := Failed)
  }

  /** The session promise resolves and its ref is set. */
  function Resolved(c: Call): Call {
    if c.phase != AwaitSession then c
    else c.(handles := c.handles.(session := Some(c.nextId)),
            live := c.live + {c.nextId}, nextId := c.nextId + 1,
            phase := SessionReady)
  }

  /** `onopen`: CONNECTED, and the source and processor nodes are created. */
  function Opened(c: Call): Call {
    if !(c.phase == AwaitSession || c.phase == SessionReady) || c.onOpenRan then c
    else c.(status := CONNECTED,
            handles := c.handles.(source := Some(c.nextId), processor := Some(c.nextId + 1)),
            live := c.live + {c.nextId, c.nextId + 1}, nextId := c.nextId + 2,
            onOpenRan := true)
  }

  /** The one-second interval runs only while active and CONNECTED. */
  function Ticked(c: Call): Call {
    if c.active && c.status == CONNECTED then c.(duration := c.duration + 1) else c
  }

  /** handleEndCall: teardown, ENDED, and the summary message. */
  function HungUp(c: Call): Call {
    var d := Cleanup(c);
    d.(status := ENDED, summaries := d.summaries + [Summary(c.duration)])
  }

  function Step(c: Call, e: Event): Call {
    match e
    case StartCall(now) => Start(c, now)
    case MicGranted => Granted(c)
    case MicDenied => ConnectFailed(c, AwaitMic)
    case SessionRejected => ConnectFailed(c, AwaitSession)
    case SessionResolved => Resolved(c)
    case SessionOpened => Opened(c)
    // onaudioprocess fires only while the processor node is connected.
    case CaptureBlock(samples, level) =>
      if c.handles.processor.None? then c else Capture(c, samples, level)
    case ServerMessage(inlineAudio, now) => Receive(c, inlineAudio, now)
    case PlaybackEnded => c.(volume := 0.0)
    case SessionClosed => c.(status := ENDED)
    case SessionError => c.(status := ENDED)
    case Tick => Ticked(c)
    case ToggleMute => c.(muted := !c.muted)
    case Hangup => HungUp(c)
    // The reset handleEndCall schedules 1.5 s later.
    case HangupReset => c.(active := false, status := CONNECTING, duration := 0)
    case Unmount => Cleanup(c)
  }

  function Run(c: Call, es: seq<Event>): Call
    decreases |es|
  {
    if |es| == 0 then c else Run(Step(c, es[0]), es[1..])
  }

  // ---------------------------------------------------------------------
  // Properties of single transitions
  // ---------------------------------------------------------------------

  /** startCall makes the call active and CONNECTING with duration 0, and
      the playback cursor starts at the new context's clock. */
  lemma StartCallSpec(c: Call, now: real)
    ensures var d := Step(c, StartCall(now));
      && d.active && d.status == CONNECTING && d.duration == 0
      && d.cursor == now
      && d.handles.context.Some? && HeldKinds(d.handles) == [ContextKind]
      && d.released == c.released + HeldKinds(c.handles)
  {
    var d := Step(c, StartCall(now));
    CleanupOrder(d.handles);
  }

  /** Only `onopen` connects a call. */
  lemma OnlyOpenConnects(c: Call, e: Event)
    requires c.status != CONNECTED
    requires Step(c, e).status == CONNECTED
    ensures e == SessionOpened
  {
  }

  /** The events that end a call: close, error, a failed connect, hangup. */
  lemma EndedOnlyBy(c: Call, e: Event)
    requires c.status != ENDED
    requires Step(c, e).status == ENDED
    ensures e.SessionClosed? || e.SessionError? || e.MicDenied? || e.SessionRejected? || e.Hangup?
  {
  }

  /** Each of those events does end it. */
  lemma EndingEvents(c: Call, e: Event)
    requires e.SessionClosed? || e.SessionError? || e.Hangup?
      || (e.MicDenied? && c.phase == AwaitMic)
      || (e.SessionRejected? && c.phase == AwaitSession)
    ensures Step(c, e).status == ENDED
  {
  }

  /** The duration rises by exactly one per tick while the call is active
      and CONNECTED, and is frozen otherwise. */
  lemma TickSpec(c: Call)
    ensures var d := Step(c, Tick);
      && (c.active && c.status == CONNECTED ==> d.duration == c.duration + 1)
      && (!(c.active && c.status == CONNECTED) ==> d.duration == c.duration)
      && d.(duration := c.duration) == c
  {
  }

  /** Every other event leaves the duration alone, except startCall and the
      delayed reset, which set it to 0. */
  lemma DurationOnlyTicks(c: Call, e: Event)
    requires !e.Tick?
    ensures Step(c, e).duration == c.duration || (Step(c, e).duration == 0 && (e.StartCall? || e.HangupReset?))
  {
    if e.Hangup? || e.Unmount? || e.CaptureBlock? || e.ServerMessage? {
      FramedEventsKeepDuration(c, e);
    } else {
      PlainEventsKeepDuration(c, e);
    }
  }

  lemma FramedEventsKeepDuration(c: Call, e: Event)
    requires e.Hangup? || e.Unmount? || e.CaptureBlock? || e.ServerMessage?
    ensures Step(c, e).duration == c.duration
  {
  }

  lemma PlainEventsKeepDuration(c: Call, e: Event)
    requires !(e.Hangup? || e.Unmount? || e.CaptureBlock? || e.ServerMessage? || e.Tick?)
    ensures Step(c, e).duration == c.duration || (Step(c, e).duration == 0 && (e.StartCall? || e.HangupReset?))
  {
  }

  /** After the delayed reset the call is inactive, CONNECTING, at 0 s. */
  lemma HangupResetSpec(c: Call)
    ensures var d := Step(c, HangupReset);
      !d.active && d.status == CONNECTING && d.duration == 0
  {
  }

  /** Hanging up releases everything, ends the call and appends one summary
      whose last characters are the formatted duration. */
  lemma HangupSpec(c: Call)
    ensures var d := Step(c, Hangup);
      && d.status == ENDED && d.handles == NoHandles
      && |d.summaries| == |c.summaries| + 1
      && d.summaries[..|c.summaries|] == c.summaries
      && Text.EndsWith(d.summaries[|c.summaries|], FormatDuration(c.duration))
  {
  }

  /** A muted capture callback changes nothing: no send, no level. */
  lemma MutedCaptureIsSilent(c: Call, samples: seq<real>, level: real)
    requires c.mutedSeen
    ensures Step(c, CaptureBlock(samples, level)) == c
  {
  }

  /** An unmuted block updates the level and is sent exactly once, as
      16 kHz PCM in base64, when the session ref is set; not at all when
      it is not. */
  lemma UnmutedCaptureSendsOnce(c: Call, samples: seq<real>, level: real)
    requires !c.mutedSeen && c.handles.processor.Some? && c.handles.session.Some?
    ensures var d := Step(c, CaptureBlock(samples, level));
      && d.volume == level
      && |d.sent| == |c.sent| + 1
      && d.sent[..|c.sent|] == c.sent
      && d.sent[|c.sent|].mimeType == CaptureMime
      && Base64.Base64ToBytes(d.sent[|c.sent|].data) == Success(Pcm.EncodeBlock(samples))
  {
    var pcm := Pcm.EncodeBlock(samples);
    var m := Media(CaptureMime, Base64.ArrayBufferToBase64(pcm));
    CaptureAppends(c, samples, level);
    var sent := c.sent + [m];
    assert sent[..|c.sent|] == c.sent && sent[|c.sent|] == m;
    Base64.TransportRoundTrip(pcm);
  }

  lemma CaptureAppends(c: Call, samples: seq<real>, level: real)
    requires !c.mutedSeen && c.handles.processor.Some? && c.handles.session.Some?
    ensures Step(c, CaptureBlock(samples, level)) ==
      c.(volume := level,
         sent := c.sent + [Media(CaptureMime, Base64.ArrayBufferToBase64(Pcm.EncodeBlock(samples)))])
  {
    assert Step(c, CaptureBlock(samples, level)) == Capture(c, samples, level);
  }

  /** Without a session ref the block only updates the level. */
  lemma UnmutedCaptureWithoutSession(c: Call, samples: seq<real>, level: real)
    requires !c.mutedSeen && c.handles.processor.Some? && c.handles.session.None?
    ensures Step(c, CaptureBlock(samples, level)) == c.(volume := level)
  {
  }

  /** Toggling mute during a call does not reach the capture callback: it
      goes on seeing the flag as it was when the call started. */
  lemma MuteToggleNotSeen(c: Call)
    ensures Step(c, ToggleMute).mutedSeen == c.mutedSeen
    ensures Step(c, ToggleMute).muted != c.muted
  {
  }

  /** The playback cursor never moves backwards. A message is played
      exactly when its payload is playable: then one buffer is scheduled,
      starting at the later of the clock reading and the cursor, and the
      cursor moves to its end. */
  lemma ReceiveSchedules(c: Call, inlineAudio: Option<string>, now: real)
    ensures var d := Step(c, ServerMessage(inlineAudio, now));
      && d.cursor >= c.cursor
      && (|d.scheduled| == |c.scheduled| + 1 <==> Playable(c, inlineAudio, now))
      && (|d.scheduled| == |c.scheduled| ==> d == c)
      && (|d.scheduled| > |c.scheduled| ==>
            && d.scheduled[..|c.scheduled|] == c.scheduled
            && var p := d.scheduled[|c.scheduled|];
            && p.start == (if now > c.cursor then now else c.cursor)
            && d.cursor == p.cursor && p.cursor > p.start
            && d.volume == SpeakingLevel)
  {
  }

  /** The agent's audio, as the transport carries it, is always played: a
      whole number of samples gives one buffer of that many samples at
      24 kHz, laid after what is already scheduled. */
  lemma ReceivePlays(c: Call, bytes: seq<Byte>, now: real)
    requires |bytes| > 0 && |bytes| % 2 == 0
    ensures var d := Receive(c, Some(Base64.ArrayBufferToBase64(bytes)), now);
      && |d.scheduled| == |c.scheduled| + 1
      && d.scheduled[..|c.scheduled|] == c.scheduled
      && var p := d.scheduled[|c.scheduled|];
      && p.start == (if now > c.cursor then now else c.cursor)
      && p.cursor == p.start + (|bytes| / 2) as real / Pcm.PlaybackRate as real
      && d.cursor == p.cursor
      && d.volume == SpeakingLevel
  {
    var payload := Base64.ArrayBufferToBase64(bytes);
    Playback.EvenPayloadPlacement(c.cursor, now, bytes);
    assert Playable(c, Some(payload), now);
  }


  // ---------------------------------------------------------------------
  // Resource invariant
  // ---------------------------------------------------------------------

  /** No two refs point to the same resource. */
  predicate DistinctRefs(h: Handles) {
    forall k1, k2 :: k1 != k2 && Handle(h, k1).Some? && Handle(h, k2).Some? ==>
      Handle(h, k1).value != Handle(h, k2).value
  }

  /** Every acquired, unreleased resource is held by exactly one ref, every
      ref holds a live resource, resource numbers are fresh, and a ref is
      only ever set when it is clear. */
  predicate Inv(c: Call) {
    && c.live == HeldIds(c.handles)
    && DistinctRefs(c.handles)
    && (forall id :: id in c.live ==> id < c.nextId)
    && (c.phase == AwaitMic ==> c.handles.stream.None?)
    && (c.phase == AwaitMic || c.phase == AwaitSession ==> c.handles.session.None?)
    && (!c.onOpenRan ==> c.handles.source.None? && c.handles.processor.None?)
  }

  lemma InitInv(callMode: bool)
    ensures Inv(Init(callMode))
  {
    NothingHeld();
  }

  /** Every transition keeps the invariant: no ref is overwritten while it
      holds a resource, and a connect starts from nothing held but its own
      new context. A connect callback arriving outside its phase is
      dropped, so this holds for calls whose connect callbacks all arrive
      before the next `startCall`; the late callbacks of a superseded
      connect are not modelled. */
  lemma StepInv(c: Call, e: Event)
    requires Inv(c)
    ensures Inv(Step(c, e))
  {
    if e.StartCall? || e.MicGranted? || e.SessionResolved? || e.SessionOpened? {
      ConnectStepInv(c, e);
    } else if e.Hangup? || e.Unmount? {
      TeardownStepInv(c, e);
    } else {
      OtherEventsKeepResources(c, e);
      SameResourcesInv(c, Step(c, e));
    }
  }

  lemma ConnectStepInv(c: Call, e: Event)
    requires Inv(c)
    requires e.StartCall? || e.MicGranted? || e.SessionResolved? || e.SessionOpened?
    ensures Inv(Step(c, e))
  {
    if e.StartCall? {
      StartInv(c, e.now);
    } else if e.MicGranted? {
      GrantedInv(c);
    } else if e.SessionResolved? {
      ResolvedInv(c);
    } else {
      OpenedInv(c);
    }
  }

  lemma TeardownStepInv(c: Call, e: Event)
    requires Inv(c)
    requires e.Hangup? || e.Unmount?
    ensures Inv(Step(c, e))
  {
    if e.Hangup? {
      HangupInv(c);
    } else {
      CleanupInv(c);
    }
  }

  lemma HangupInv(c: Call)
    requires Inv(c)
    ensures Inv(HungUp(c))
  {
    CleanupInv(c);
    var d := Cleanup(c);
    assert HungUp(c) == d.(status := ENDED, summaries := d.summaries + [Summary(c.duration)]);
    SameResourcesInv(d, HungUp(c));
  }

  /** Teardown keeps the invariant: it ends with nothing held or live. */
  lemma CleanupInv(c: Call)
    requires Inv(c)
    ensures Inv(Cleanup(c))
  {
    NothingHeld();
  }

  lemma SameResourcesInv(c: Call, d: Call)
    requires Inv(c) && SameResources(c, d)
    ensures Inv(d)
  {
  }

  /** The events other than the connect steps and teardown leave the
      resources alone. */
  lemma OtherEventsKeepResources(c: Call, e: Event)
    requires !(e.StartCall? || e.MicGranted? || e.SessionResolved? || e.SessionOpened? || e.Hangup? || e.Unmount?)
    ensures SameResources(c, Step(c, e))
  {
    match e {
      case CaptureBlock(samples, level) =>
      case ServerMessage(inlineAudio, now) =>
      case _ =>
    }
  }

  /** The parts of the state the resource invariant is about. */
  predicate SameResources(c: Call, d: Call) {
    && d.handles == c.handles && d.live == c.live && d.nextId == c.nextId
    && d.onOpenRan == c.onOpenRan
    && (d.phase == c.phase || d.phase == Failed)
  }

  lemma StartInv(c: Call, now: real)
    requires Inv(c)
    ensures Inv(Start(c, now))
  {
    NothingHeld();
    HeldIdsSet(NoHandles, ContextKind, c.nextId);
    DistinctSet(NoHandles, ContextKind, c.nextId);
  }

  lemma GrantedInv(c: Call)
    requires Inv(c)
    ensures Inv(Granted(c))
  {
    if c.phase == AwaitMic {
      HeldIdsSet(c.handles, StreamKind, c.nextId);
      DistinctSet(c.handles, StreamKind, c.nextId);
    }
  }

  lemma ResolvedInv(c: Call)
    requires Inv(c)
    ensures Inv(Resolved(c))
  {
    if c.phase == AwaitSession {
      HeldIdsSet(c.handles, SessionKind, c.nextId);
      DistinctSet(c.handles, SessionKind, c.nextId);
    }
  }

  lemma OpenedInv(c: Call)
    requires Inv(c)
    ensures Inv(Opened(c))
  {
    if (c.phase == AwaitSession || c.phase == SessionReady) && !c.onOpenRan {
      var h1 := SetHandle(c.handles, SourceKind, c.nextId);
      HeldIdsSet(c.handles, SourceKind, c.nextId);
      DistinctSet(c.handles, SourceKind, c.nextId);
      HeldIdsSet(h1, ProcessorKind, c.nextId + 1);
      DistinctSet(h1, ProcessorKind, c.nextId + 1);
      assert SetHandle(h1, ProcessorKind, c.nextId + 1) == Opened(c).handles;
    }
  }

  function SetHandle(h: Handles, k: Kind, id: nat): (h': Handles)
    ensures Handle(h', k) == Some(id)
    ensures forall k' :: k' != k ==> Handle(h', k') == Handle(h, k')
  {
    match k
    case SessionKind => h.(session := Some(id))
    case ProcessorKind => h.(processor := Some(id))
    case SourceKind => h.(source := Some(id))
    case StreamKind => h.(stream := Some(id))
    case ContextKind => h.(context := Some(id))
  }

  /** Setting a clear ref adds exactly its new resource. */
  lemma HeldIdsSet(h: Handles, k: Kind, id: nat)
    requires Handle(h, k).None?
    ensures HeldIds(SetHandle(h, k, id)) == HeldIds(h) + {id}
  {
    var h' := SetHandle(h, k, id);
    assert k in Kinds;
  }

  /** Setting a clear ref to a resource no other ref holds keeps the refs
      distinct. */
  lemma DistinctSet(h: Handles, k: Kind, id: nat)
    requires DistinctRefs(h) && Handle(h, k).None? && id !in HeldIds(h)
    ensures DistinctRefs(SetHandle(h, k, id))
  {
    var h' := SetHandle(h, k, id);
    forall k1, k2 | k1 != k2 && Handle(h', k1).Some? && Handle(h', k2).Some?
      ensures Handle(h', k1).value != Handle(h', k2).value
    {
      assert k1 in Kinds && k2 in Kinds;
    }
  }

  lemma {:induction false} RunInv(c: Call, es: seq<Event>)
    requires Inv(c)
    ensures Inv(Run(c, es))
    decreases |es|
  {
    if |es| > 0 {
      StepInv(c, es[0]);
      RunInv(Step(c, es[0]), es[1..]);
    }
  }

  /** Teardown from a reachable state releases every live resource. */
  lemma CleanupReleasesAll(c: Call)
    requires Inv(c)
    ensures Cleanup(c).live == {}
  {
  }

  // ---------------------------------------------------------------------
  // Scenarios
  // ---------------------------------------------------------------------

  /** A failed connect ends the call but keeps the audio context it
      created; the next startCall releases it. */
  lemma FailedConnectKeepsContext(c: Call, now: real, later: real)
    ensures var d := Run(c, [StartCall(now), MicDenied]);
      && d.status == ENDED
      && d.handles.context.Some?
      && d.handles.context.value in d.live
      && var d2 := Step(d, StartCall(later));
         d2.released == d.released + [ContextKind]
  {
    var d1 := Step(c, StartCall(now));
    var d := Step(d1, MicDenied);
    assert Run(c, [StartCall(now), MicDenied]) == d by {
      assert [StartCall(now), MicDenied][1..] == [MicDenied];
      assert Run(d1, [MicDenied]) == Run(d, []);
    }
    HeldIdsSet(NoHandles, ContextKind, c.nextId);
    NothingHeld();
    CleanupOrder(d.handles);
  }

  /** Connect, open, and five ticks: the call shows 0:05. */
  lemma FiveSecondCall(now: real)
    ensures var d := Run(Init(true),
      [StartCall(now), MicGranted, SessionOpened, SessionResolved] + Ticks(5));
      && d.status == CONNECTED && d.duration == 5
      && FormatDuration(d.duration) == "0:05"
  {
    var d := ConnectThenTicks(Init(true), now, 5);
    FormatFive();
  }

  /** Connecting and then `n` ticks leave the call CONNECTED at `n`
      seconds, whatever state it started from. */
  lemma ConnectThenTicks(c: Call, now: real, n: nat) returns (d: Call)
    ensures d == Run(c, [StartCall(now), MicGranted, SessionOpened, SessionResolved] + Ticks(n))
    ensures d.status == CONNECTED && d.duration == n
  {
    var c4 := ConnectAndOpen(c, now);
    RunSplit(c, [StartCall(now), MicGranted, SessionOpened, SessionResolved], Ticks(n));
    RunTicks(c4, n);
    d := Run(c4, Ticks(n));
  }

  lemma FormatFive()
    ensures FormatDuration(5) == "0:05"
  {
    assert 5 / 60 == 0 && 5 % 60 == 5;
    assert Text.NatToString(0) == ['0'];
    assert Text.NatToString(5) == ['5'];
    assert Text.PadStart2(['5']) == ['0', '5'];
    assert ['0'] + ":" + ['0', '5'] == "0:05";
  }

  /** The connect sequence with every callback succeeding. */
  lemma ConnectAndOpen(c: Call, now: real) returns (d: Call)
    ensures d == Run(c, [StartCall(now), MicGranted, SessionOpened, SessionResolved])
    ensures d.active && d.status == CONNECTED && d.duration == 0
  {
    var c1 := Start(c, now);
    var c2 := Granted(c1);
    var c3 := Opened(c2);
    d := Resolved(c3);
    RunFour(c, StartCall(now), MicGranted, SessionOpened, SessionResolved);
    assert Step(c, StartCall(now)) == c1;
    assert Step(c1, MicGranted) == c2;
    assert Step(c2, SessionOpened) == c3;
    assert Step(c3, SessionResolved) == d;
  }

  lemma RunFour(c: Call, e1: Event, e2: Event, e3: Event, e4: Event)
    ensures Run(c, [e1, e2, e3, e4]) == Step(Step(Step(Step(c, e1), e2), e3), e4)
  {
    var c1 := Step(c, e1);
    var c2 := Step(c1, e2);
    var c3 := Step(c2, e3);
    RunCons(c, e1, [e2, e3, e4]);
    RunCons(c1, e2, [e3, e4]);
    RunCons(c2, e3, [e4]);
    RunCons(c3, e4, []);
    assert [e1, e2, e3, e4] == [e1] + [e2, e3, e4];
    assert [e2, e3, e4] == [e2] + [e3, e4];
    assert [e3, e4] == [e3] + [e4];
    assert [e4] == [e4] + [];
  }

  lemma RunCons(c: Call, e: Event, rest: seq<Event>)
    ensures Run(c, [e] + rest) == Run(Step(c, e), rest)
  {
    assert ([e] + rest)[1..] == rest;
  }

  function Ticks(n: nat): (es: seq<Event>)
    ensures |es| == n && forall i :: 0 <= i < n ==> es[i] == Tick
  {
    if n == 0 then [] else [Tick] + Ticks(n - 1)
  }

  /** `n` ticks of a connected call add `n` seconds. */
  lemma {:induction false} RunTicks(c: Call, n: nat)
    requires c.active && c.status == CONNECTED
    ensures Run(c, Ticks(n)) == c.(duration := c.duration + n)
    decreases n
  {
    if n > 0 {
      assert Ticks(n)[1..] == Ticks(n - 1);
      RunTicks(Step(c, Tick), n - 1);
    }
  }

  lemma {:induction false} RunSplit(c: Call, a: seq<Event>, b: seq<Event>)
    ensures Run(c, a + b) == Run(Run(c, a), b)
    decreases |a|
  {
    if |a| > 0 {
      assert (a + b)[0] == a[0];
      assert (a + b)[1..] == a[1..] + b;
      RunSplit(Step(c, a[0]), a[1..], b);
      calc {
        Run(c, a + b);
        Run(Step(c, a[0]), a[1..] + b);
        Run(Run(Step(c, a[0]), a[1..]), b);
        Run(Run(c, a), b);
      }
    } else {
      assert a + b == b;
    }
  }
}
