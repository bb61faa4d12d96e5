/** `processIncomingWebhook` (services/webhookHandler.ts): one inbound
    webhook event, dispatched on the lower-cased service name, validated,
    and answered with a result and the log lines written while handling it.
    Generated log ids and timestamps are not modelled. */
module Webhook {
  import opened Wrappers
  import opened Text
  import opened Records
  import opened Json

  /** The `data` object of a successful result, per service. Each variant
      also stands for that service's constant field: `processed: true` for
      n8n, `status: 'generated'` for ElevenLabs and `received: true` for
      the generic case. */
  datatype WebhookData =
    | N8nData(output: Option<Json>, workflowId: Json)
    | VoiceData(characterCount: Json, voiceId: Json)
    | SmsData(sid: Option<Json>, from: Option<Json>)
    | GenericData(payloadSize: nat)

  datatype Outcome = Outcome(
    success: bool,
    message: string,
    data: Option<WebhookData>,
    logs: seq<LogEntry>)

  /** Every line the handler writes has source API. */
  function Log(level: LogLevel, message: string, details: Option<string>): (e: LogEntry)
    ensures e.source == API
  {
    LogEntry(level, API, message, details)
  }

  function ReceivedLog(service: string): LogEntry {
    Log(INFO, "Received webhook event for service: " + service, None)
  }

  const MissingSidOrBody: string := "Missing MessageSid or Body"
  const InvalidPayload: string := "Invalid payload structure"

  /** The catch block: the error's message is both the result message and
      the details of an ERROR line. */
  function Thrown(service: string, errorMessage: string): Outcome {
    Outcome(false, errorMessage, None,
      [ReceivedLog(service), Log(ERROR, "Processing failed", Some(errorMessage))])
  }

  /** `payload.text?.length || 0`: a string's length in UTF-16 code units,
      an array's element count, and 0 when there is no text. */
  function CharacterCount(text: Option<Json>): (n: Json)
    ensures text.Some? && text.value.JStr? ==> n == JNum(Utf16Length(text.value.s) as real)
    ensures text.Some? && text.value.JArr? ==> n == JNum(|text.value.items| as real)
    ensures text.None? || text == Some(JNull) ==> n == JNum(0.0)
  {
    var len: Option<Json> :=
      match text
      case Some(JStr(s)) => Some(JNum(Utf16Length(s) as real))
      case Some(JArr(items)) => Some(JNum(|items| as real))
      case Some(JObj(members)) => Lookup(members, "length")
      case _ => None;
    if Truthy(len) then len.value else JNum(0.0)
  }

  /** Template-literal conversion: strings stay as they are. */
  function TemplateText(eng: Engine, v: Json): string {
    if v.JStr? then v.s else eng.display(v)
  }

  predicate N8nValid(payload: Json)
    requires payload != JNull
  {
    Truthy(Get(payload, "body")) || Truthy(Get(payload, "message"))
      || Truthy(Get(payload, "data")) || Truthy(Get(payload, "output"))
  }

  predicate HasSidOrBody(payload: Json)
    requires payload != JNull
  {
    Truthy(Get(payload, "MessageSid")) || Truthy(Get(payload, "Body"))
  }

  function ProcessN8n(eng: Engine, service: string, payload: Json): Outcome {
    if payload == JNull then Thrown(service, eng.nullAccessMessage("body"))
    else if !N8nValid(payload) then
      Outcome(false, InvalidPayload, None,
        [ReceivedLog(service), Log(WARN, "Empty or malformed n8n payload", None)])
    else
      Outcome(true, "n8n Event Processed",
        Some(N8nData(Or(Get(payload, "output"), Get(payload, "message")),
                     OrText(Get(payload, "workflowId"), "unknown"))),
        [ReceivedLog(service),
         Log(INFO, "Processing n8n workflow response", Some("Keys: " + Join(eng.keys(payload), ", ")))])
  }

  function ProcessElevenLabs(eng: Engine, service: string, payload: Json): Outcome {
    if payload == JNull then Thrown(service, eng.nullAccessMessage("text"))
    else
      Outcome(true, "Voice generation confirmed",
        Some(VoiceData(CharacterCount(Get(payload, "text")), OrText(Get(payload, "voice_id"), "unknown"))),
        [ReceivedLog(service), Log(INFO, "Processing ElevenLabs voice event", None)])
  }

  function ProcessTwilio(eng: Engine, service: string, payload: Json): Outcome {
    if payload == JNull then Thrown(service, eng.nullAccessMessage("MessageSid"))
    else if !HasSidOrBody(payload) then Thrown(service, MissingSidOrBody)
    else
      Outcome(true, "SMS Status: " + TemplateText(eng, OrText(Get(payload, "MessageStatus"), "Received")),
        Some(SmsData(Get(payload, "MessageSid"), Get(payload, "From"))),
        [ReceivedLog(service), Log(INFO, "Processing Twilio SMS status", None)])
  }

  function ProcessGeneric(eng: Engine, service: string, payload: Json): Outcome {
    Outcome(true, "Generic event received",
      Some(GenericData(Utf16Length(eng.stringify(payload)))),
      [ReceivedLog(service), Log(INFO, "Processing generic webhook", None)])
  }

  /** `processIncomingWebhook(service, payload)`. */
  function Process(eng: Engine, service: string, payload: Json): Outcome {
    var svc := ToLower(service);
    if svc == "n8n" then ProcessN8n(eng, service, payload)
    else if svc == "elevenlabs" then ProcessElevenLabs(eng, service, payload)
    else if svc == "twilio" then ProcessTwilio(eng, service, payload)
    else ProcessGeneric(eng, service, payload)
  }

  // ---------------------------------------------------------------------
  // Properties
  // ---------------------------------------------------------------------

  /** Exactly two lines, both from API: first the INFO line naming the
      service, then one line whose level is INFO exactly when the call
      succeeds; a failed call carries no data. */
  predicate WellLogged(service: string, o: Outcome) {
    && |o.logs| == 2
    && o.logs[0] == LogEntry(INFO, API, "Received webhook event for service: " + service, None)
    && (forall i :: 0 <= i < |o.logs| ==> o.logs[i].source == API)
    && (o.logs[1].level == INFO <==> o.success)
    && (!o.success ==> o.data.None?)
  }

  /** Every call is logged that way. */
  lemma LogShape(eng: Engine, service: string, payload: Json)
    ensures WellLogged(service, Process(eng, service, payload))
  {
    var svc := ToLower(service);
    if svc == "n8n" {
      N8nLogged(eng, service, payload);
    } else if svc == "elevenlabs" {
      ElevenLabsLogged(eng, service, payload);
    } else if svc == "twilio" {
      TwilioLogged(eng, service, payload);
    } else {
      GenericLogged(eng, service, payload);
    }
  }

  lemma N8nLogged(eng: Engine, service: string, payload: Json)
    ensures WellLogged(service, ProcessN8n(eng, service, payload))
  {
  }

  lemma ElevenLabsLogged(eng: Engine, service: string, payload: Json)
    ensures WellLogged(service, ProcessElevenLabs(eng, service, payload))
  {
  }

  lemma TwilioLogged(eng: Engine, service: string, payload: Json)
    ensures WellLogged(service, ProcessTwilio(eng, service, payload))
  {
  }

  lemma GenericLogged(eng: Engine, service: string, payload: Json)
    ensures WellLogged(service, ProcessGeneric(eng, service, payload))
  {
  }

  /** The service name is matched without regard to case: two spellings
      with the same lower-case form get the same answer, and differ only in
      the first log line's echo of the name. */
  lemma CaseInsensitive(eng: Engine, s1: string, s2: string, payload: Json)
    requires ToLower(s1) == ToLower(s2)
    ensures SameAnswer(Process(eng, s1, payload), Process(eng, s2, payload))
  {
    var svc := ToLower(s1);
    if svc == "n8n" {
      N8nSame(eng, s1, s2, payload);
    } else if svc == "elevenlabs" {
      ElevenLabsSame(eng, s1, s2, payload);
    } else if svc == "twilio" {
      TwilioSame(eng, s1, s2, payload);
    } else {
      GenericSame(eng, s1, s2, payload);
    }
  }

  lemma N8nSame(eng: Engine, s1: string, s2: string, payload: Json)
    ensures SameAnswer(ProcessN8n(eng, s1, payload), ProcessN8n(eng, s2, payload))
  {
  }

  lemma ElevenLabsSame(eng: Engine, s1: string, s2: string, payload: Json)
    ensures SameAnswer(ProcessElevenLabs(eng, s1, payload), ProcessElevenLabs(eng, s2, payload))
  {
  }

  lemma TwilioSame(eng: Engine, s1: string, s2: string, payload: Json)
    ensures SameAnswer(ProcessTwilio(eng, s1, payload), ProcessTwilio(eng, s2, payload))
  {
  }

  lemma GenericSame(eng: Engine, s1: string, s2: string, payload: Json)
    ensures SameAnswer(ProcessGeneric(eng, s1, payload), ProcessGeneric(eng, s2, payload))
  {
  }

  /** Equal results up to the first log line. */
  predicate SameAnswer(o1: Outcome, o2: Outcome) {
    && o1.success == o2.success && o1.message == o2.message && o1.data == o2.data
    && |o1.logs| == |o2.logs| > 0 && o1.logs[1..] == o2.logs[1..]
  }

  /** n8n: a payload with none of body, message, data, output fails with
      the invalid-structure message and a WARN line; otherwise it succeeds,
      passing on output (or else message) and the workflow id (or else
      'unknown'). */
  lemma N8nRules(eng: Engine, service: string, payload: Json)
    requires ToLower(service) == "n8n" && payload != JNull
    ensures var o := Process(eng, service, payload);
      && (o.success <==> N8nValid(payload))
      && (!N8nValid(payload) ==> o.message == InvalidPayload && o.logs[1].level == WARN)
      && (N8nValid(payload) ==>
            && o.data.Some?
            && o.data.value.output == (if Truthy(Get(payload, "output")) then Get(payload, "output") else Get(payload, "message"))
            && o.data.value.workflowId == (if Truthy(Get(payload, "workflowId")) then Get(payload, "workflowId").value else JStr("unknown")))
  {
  }

  /** ElevenLabs always succeeds on a non-null payload; the character count
      of a text string is its length in UTF-16 code units, and the voice id defaults to
      'unknown'. */
  lemma ElevenLabsRules(eng: Engine, service: string, payload: Json)
    requires ToLower(service) == "elevenlabs" && payload != JNull
    ensures var o := Process(eng, service, payload);
      && o.success && o.message == "Voice generation confirmed"
      && o.data.Some? && o.data.value.VoiceData?
      && (Get(payload, "text").Some? && Get(payload, "text").value.JStr? ==>
            o.data.value.characterCount == JNum(Utf16Length(Get(payload, "text").value.s) as real))
      && (Get(payload, "text").None? ==> o.data.value.characterCount == JNum(0.0))
      && (!Truthy(Get(payload, "voice_id")) ==> o.data.value.voiceId == JStr("unknown"))
  {
  }

  /** Twilio without MessageSid and Body fails with that complaint and a
      final ERROR line; with either, it reports the message status, or
      'Received'. */
  lemma TwilioRules(eng: Engine, service: string, payload: Json)
    requires ToLower(service) == "twilio" && payload != JNull
    ensures var o := Process(eng, service, payload);
      && (o.success <==> HasSidOrBody(payload))
      && (!HasSidOrBody(payload) ==>
            o.message == MissingSidOrBody
            && o.logs[1] == LogEntry(ERROR, API, "Processing failed", Some(MissingSidOrBody)))
      && (HasSidOrBody(payload) && !Truthy(Get(payload, "MessageStatus")) ==>
            o.message == "SMS Status: Received")
  {
  }

  /** Any other service succeeds with the generic message, whatever the
      payload, null included. */
  lemma GenericRules(eng: Engine, service: string, payload: Json)
    requires ToLower(service) !in ["n8n", "elevenlabs", "twilio"]
    ensures var o := Process(eng, service, payload);
      o.success && o.message == "Generic event received"
      && o.data == Some(GenericData(Utf16Length(eng.stringify(payload))))
  {
  }

  /** A null payload sent to one of the three named services makes the
      first property read throw; the call fails with an ERROR line. */
  lemma NullPayloadFails(eng: Engine, service: string)
    requires ToLower(service) in ["n8n", "elevenlabs", "twilio"]
    ensures var o := Process(eng, service, JNull);
      !o.success && o.logs[1].level == ERROR && o.logs[1].details == Some(o.message)
  {
  }
}
