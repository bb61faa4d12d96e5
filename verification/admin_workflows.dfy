/** The workflow console (components/admin/AdminWorkflows.tsx): the
    voice-workflow test, payload templates, the connection test that runs
    a payload through the inbound webhook handler, and the display rules
    that depend on a workflow's service type, status and URL. */
module AdminWorkflows {
  import opened Wrappers
  import opened Text
  import opened Records
  import opened Json
  import Webhook

  /** The description or the name mentions ElevenLabs, in any case. */
  predicate IsVoiceWorkflow(wf: WorkflowConfig) {
    Includes(ToLower(wf.description), "elevenlabs") || Includes(ToLower(wf.name), "elevenlabs")
  }

  /** A workflow whose name or description mentions "ElevenLabs" anywhere
      is a voice workflow, whatever surrounds the mention. */
  lemma VoiceByMention(wf: WorkflowConfig, pre: string, post: string)
    requires wf.name == pre + "ElevenLabs" + post || wf.description == pre + "ElevenLabs" + post
    ensures IsVoiceWorkflow(wf)
  {
    IncludesLowered(pre, "ElevenLabs", post);
    LowerElevenLabs();
  }

  lemma LowerElevenLabs()
    ensures ToLower("ElevenLabs") == "elevenlabs"
  {
    ToLowerPointwise("ElevenLabs", "elevenlabs");
  }

  /** The name of a service type, with 'custom' for a workflow without
      one: this is the name the test dispatches on and the form chosen. */
  function ServiceName(t: Option<ServiceType>): string {
    match t
    case None => "custom"
    case Some(N8n) => "n8n"
    case Some(Make) => "make"
    case Some(Twilio) => "twilio"
    case Some(ElevenLabs) => "elevenlabs"
    case Some(Custom) => "custom"
  }

  /** An unset service type behaves as 'custom', and the names of the
      types are all different. */
  lemma ServiceDefaultsToCustom()
    ensures ServiceName(None) == ServiceName(Some(Custom)) == "custom"
    ensures forall a: ServiceType, b: ServiceType :: ServiceName(Some(a)) == ServiceName(Some(b)) ==> a == b
  {
    assert "n8n"[0] == 'n' && "make"[0] == 'm' && "twilio"[0] == 't'
      && "elevenlabs"[0] == 'e' && "custom"[0] == 'c';
  }

  // ---------------------------------------------------------------------
  // Payload templates
  // ---------------------------------------------------------------------

  /** The default template; `now` is the page's load time. */
  function DefaultTemplate(now: int): Json {
    JObj([("test", JBool(true)), ("message", JStr("Hello World")), ("timestamp", JNum(now as real))])
  }

  const N8nTemplate: Json := JObj([
    ("body", JObj([("message", JStr("Test from Admin Panel")), ("userId", JStr("admin_123"))])),
    ("headers", JObj([("x-source", JStr("dashboard"))])),
    ("method", JStr("POST"))])

  const TwilioTemplate: Json := JObj([
    ("From", JStr("+33612345678")),
    ("Body", JStr("Ceci est un message SMS de test")),
    ("AccountSid", JStr("AC_TEST_123")),
    ("MessageSid", JStr("SM_TEST_456"))])

  const ElevenLabsText: string := "Bonjour, ceci est un test de synthèse vocale."

  const ElevenLabsTemplate: Json := JObj([
    ("text", JStr(ElevenLabsText)),
    ("model_id", JStr("eleven_multilingual_v2")),
    ("voice_settings", JObj([("stability", JNum(0.5)), ("similarity_boost", JNum(0.75))]))])

  /** `PAYLOAD_TEMPLATES[key] || PAYLOAD_TEMPLATES.default`. */
  function Template(key: string, now: int): Json {
    if key == "n8n" then N8nTemplate
    else if key == "twilio" then TwilioTemplate
    else if key == "elevenlabs" then ElevenLabsTemplate
    else DefaultTemplate(now)
  }

  /** `loadTemplate(key)`: the template, serialised with two-space
      indentation, put into the editor. */
  function LoadTemplate(eng: Engine, key: string, now: int): string {
    eng.stringifyIndented(Template(key, now))
  }

  /** Any key other than the three service names loads the default
      template. */
  lemma UnknownKeyLoadsDefault(eng: Engine, key: string, now: int)
    requires key !in ["n8n", "twilio", "elevenlabs"]
    ensures LoadTemplate(eng, key, now) == eng.stringifyIndented(DefaultTemplate(now))
  {
  }

  /** The n8n template passes n8n validation. */
  lemma N8nTemplateAccepted(eng: Engine)
    ensures Webhook.Process(eng, "n8n", N8nTemplate).success
  {
    ToLowerOfLower("n8n");
    var m := N8nTemplate.members;
    assert Lookup(m, "body") == Lookup(m[..2], "body");
    assert Lookup(m[..2], "body") == Lookup(m[..2][..1], "body");
    assert Truthy(Get(N8nTemplate, "body"));
    Webhook.N8nRules(eng, "n8n", N8nTemplate);
  }

  /** The Twilio template carries a MessageSid and so is accepted. */
  lemma TwilioTemplateAccepted(eng: Engine)
    ensures Webhook.Process(eng, "twilio", TwilioTemplate).success
  {
    ToLowerOfLower("twilio");
    assert Get(TwilioTemplate, "MessageSid") == Some(JStr("SM_TEST_456"));
    Webhook.TwilioRules(eng, "twilio", TwilioTemplate);
  }

  lemma ElevenLabsTemplateFields()
    ensures Get(ElevenLabsTemplate, "text") == Some(JStr(ElevenLabsText))
    ensures Get(ElevenLabsTemplate, "voice_id") == None
  {
    var m := ElevenLabsTemplate.members;
    assert Lookup(m, "text") == Lookup(m[..2], "text");
    assert Lookup(m[..2], "text") == Lookup(m[..2][..1], "text");
  }

  /** The ElevenLabs template reports its text's length in UTF-16 code
      units and, having no voice_id, the 'unknown' voice. */
  lemma ElevenLabsTemplateCounted(eng: Engine)
    ensures var o := Webhook.Process(eng, "elevenlabs", ElevenLabsTemplate);
      && o.success && o.data.Some? && o.data.value.VoiceData?
      && o.data.value.characterCount == JNum(Utf16Length(ElevenLabsText) as real)
      && o.data.value.voiceId == JStr("unknown")
  {
    ToLowerOfLower("elevenlabs");
    ElevenLabsTemplateFields();
    Webhook.ElevenLabsRules(eng, "elevenlabs", ElevenLabsTemplate);
  }

  // ---------------------------------------------------------------------
  // Connection test
  // ---------------------------------------------------------------------

  /** The `data` shown for a test: the handler's, or the thrown error's
      text. */
  datatype ResultData = HandlerData(data: Option<Webhook.WebhookData>) | ErrorData(error: string)

  datatype TestResult = TestResult(
    status: nat,
    message: string,
    data: ResultData,
    logs: seq<LogEntry>)

  datatype Console = Console(isTesting: bool, result: Option<TestResult>)

  const InvalidJson: string := "Invalid JSON payload"

  /** Pressing Ping: testing starts and the previous result is cleared. */
  function StartTest(c: Console): (r: Console)
    ensures r.isTesting && r.result.None?
  {
    Console(true, None)
  }

  /** The test completes: `parsed` is the editor text parsed as JSON, or
      `None` when parsing throws. */
  function FinishTest(c: Console, eng: Engine, wf: WorkflowConfig, parsed: Option<Json>): Console {
    var r :=
      if parsed.None? then
        TestResult(500, InvalidJson, ErrorData("Error: " + InvalidJson), [])
      else
        var o := Webhook.Process(eng, ServiceName(wf.serviceType), parsed.value);
        TestResult(if o.success then 200 else 400, o.message, HandlerData(o.data), o.logs);
    Console(false, Some(r))
  }

  /** Every test ends with testing off and a result: 500 with the invalid
      JSON message when the payload does not parse, otherwise 200 or 400 as
      the handler succeeds or fails, carrying the handler's message, data
      and logs. */
  lemma TestSpec(c: Console, eng: Engine, wf: WorkflowConfig, parsed: Option<Json>)
    ensures var r := FinishTest(StartTest(c), eng, wf, parsed);
      && !r.isTesting && r.result.Some?
      && (parsed.None? ==> r.result.value.status == 500 && r.result.value.message == "Invalid JSON payload")
      && (parsed.Some? ==>
            var o := Webhook.Process(eng, ServiceName(wf.serviceType), parsed.value);
            && (r.result.value.status == 200 <==> o.success)
            && (r.result.value.status == 400 <==> !o.success)
            && r.result.value.message == o.message
            && r.result.value.logs == o.logs)
  {
  }

  /** A workflow without a service type is tested as a generic webhook,
      which accepts any payload. */
  lemma UntypedTestsGeneric(c: Console, eng: Engine, wf: WorkflowConfig, payload: Json)
    requires wf.serviceType.None?
    ensures FinishTest(c, eng, wf, Some(payload)).result.value.status == 200
  {
    ToLowerOfLower("custom");
    assert ServiceName(wf.serviceType) == "custom";
    assert "custom" !in ["n8n", "elevenlabs", "twilio"];
    Webhook.GenericRules(eng, "custom", payload);
  }

  // ---------------------------------------------------------------------
  // Display rules
  // ---------------------------------------------------------------------

  const ActiveColor: string := "bg-green-500 shadow-[0_0_10px_rgba(34,197,94,0.5)]"
  const InactiveColor: string := "bg-gray-500"
  const ErrorColor: string := "bg-red-500 animate-pulse"

  function StatusColor(status: string): string {
    if status == "active" then ActiveColor
    else if status == "inactive" then InactiveColor
    else if status == "error" then ErrorColor
    else InactiveColor
  }

  /** Active, inactive and error have three different colours; any other
      status is shown as inactive. */
  lemma StatusColorSpec(status: string)
    ensures StatusColor("active") != StatusColor("inactive")
    ensures StatusColor("active") != StatusColor("error")
    ensures StatusColor("inactive") != StatusColor("error")
    ensures status !in ["active", "inactive", "error"] ==> StatusColor(status) == StatusColor("inactive")
    ensures StatusColor(status) == "bg-gray-500" <==> status != "active" && status != "error"
  {
    assert |ActiveColor| != |InactiveColor| && |ActiveColor| != |ErrorColor|
      && |InactiveColor| != |ErrorColor|;
  }

  /** The generic Webhook URL field: shown unless the service type is Make
      or Twilio (an unset type counts as the empty name). */
  predicate ShowsUrlField(t: Option<ServiceType>) {
    var name := if t.None? then "" else ServiceName(t);
    name !in ["make", "twilio"]
  }

  lemma ShowsUrlFieldIff(t: Option<ServiceType>)
    ensures ShowsUrlField(t) <==> t != Some(Make) && t != Some(Twilio)
  {
    assert "n8n" != "make" && "elevenlabs" != "twilio" && "custom" != "make";
    assert "n8n"[0] == 'n' && "elevenlabs"[0] == 'e' && "custom"[0] == 'c';
  }

  /** The warning that a test URL expires after one use. */
  predicate TestUrlWarning(url: string) {
    Includes(url, "/webhook-test/")
  }

  /** Every n8n test URL, under "/webhook-test/", carries the warning. */
  lemma TestUrlWarningSpec(host: string, path: string)
    ensures TestUrlWarning(host + "/webhook-test/" + path)
  {
    assert OccursAt("/webhook-test/", "/webhook-test/", 0);
    IncludesIff("/webhook-test/", "/webhook-test/");
    IncludesExtend("/webhook-test/", "/webhook-test/", host, path);
  }

  /** A production URL, under "/webhook/", carries no warning, whatever
      its path, hyphens included, unless the path itself starts a test
      URL; the host only needs to be free of hyphens. */
  lemma ProductionUrlQuiet(host: string, path: string)
    requires '-' !in host && !Includes(path, "webhook-test/")
    ensures !TestUrlWarning(host + "/webhook/" + path)
  {
    var s := host + "/webhook/" + path;
    var pat := "/webhook-test/";
    IncludesIff(path, "webhook-test/");
    forall i | 0 <= i
      ensures !OccursAt(s, pat, i)
    {
      if i + 14 <= |s| {
        var w := s[i..i + 14];
        if i + 8 < |host| {
          assert w[8] == host[i + 8] && host[i + 8] in host;
        } else if i + 8 < |host| + 9 {
          assert w[8] == "/webhook/"[i + 8 - |host|];
        } else if i < |host| + 8 {
          assert w[0] == "/webhook/"[i - |host|];
        } else {
          var j := i - |host| - 8;
          assert w[1..] == path[j..j + 13];
          assert !OccursAt(path, "webhook-test/", j);
        }
      }
    }
    IncludesIff(s, pat);
  }
}
