/** `generateAgentResponse` (services/geminiService.ts): the agent's
    webhook first, then keyword intent detection and a chain of handlers
    ending in a text-chat request. The remote model calls and the webhook's
    HTTP exchange are not modelled: their results are inputs, so what is
    modelled is every decision taken on them. */
module Gemini {
  import opened Wrappers
  import opened Text
  import opened Records
  import opened Json

  // ---------------------------------------------------------------------
  // Intent detection
  // ---------------------------------------------------------------------

  datatype Intent =
    | GENERATE_IMAGE | GENERATE_VIDEO | SEARCH | MAPS | EDIT_IMAGE | TTS | THINKING | CHAT

  /** The keyword groups, in the order they are tested: `Groups1` is the
      whole table and each `GroupsN` is the table from group N on. */
  const Groups7: seq<(Intent, seq<string>)> := [(THINKING, ["réfléchis", "analyse complexe"])]
  const Groups6: seq<(Intent, seq<string>)> := [(TTS, ["prononce", "dis-le"])] + Groups7
  const Groups5: seq<(Intent, seq<string>)> := [(EDIT_IMAGE, ["édite cette image", "modifie la photo"])] + Groups6
  const Groups4: seq<(Intent, seq<string>)> := [(MAPS, ["carte", "où se trouve", "itinéraire"])] + Groups5
  const Groups3: seq<(Intent, seq<string>)> := [(SEARCH, ["recherche", "actualité", "info récente"])] + Groups4
  const Groups2: seq<(Intent, seq<string>)> :=
    [(GENERATE_VIDEO, ["génère une vidéo", "crée une vidéo", "anime cette image"])] + Groups3
  const Groups1: seq<(Intent, seq<string>)> :=
    [(GENERATE_IMAGE, ["génère une image", "dessine", "crée une photo"])] + Groups2
  const KeywordTable: seq<(Intent, seq<string>)> := Groups1

  predicate AnyIncluded(t: string, keywords: seq<string>) {
    exists j :: 0 <= j < |keywords| && Includes(t, keywords[j])
  }

  /** The intent of the first group with a keyword in `t`; CHAT when no
      group has one. */
  function FirstMatch(table: seq<(Intent, seq<string>)>, t: string): (r: Intent)
    ensures r == CHAT && (forall i :: 0 <= i < |table| ==> table[i].0 != CHAT)
      ==> forall i :: 0 <= i < |table| ==> !AnyIncluded(t, table[i].1)
    ensures r != CHAT ==> exists i :: (0 <= i < |table| && table[i].0 == r
      && AnyIncluded(t, table[i].1)
      && (forall k :: 0 <= k < i ==> !AnyIncluded(t, table[k].1)))
  {
    if |table| == 0 then CHAT
    else if AnyIncluded(t, table[0].1) then table[0].0
    else
      var r := FirstMatch(table[1..], t);
      assert r != CHAT ==> exists i :: (0 <= i < |table| && table[i].0 == r
        && AnyIncluded(t, table[i].1)
        && (forall k :: 0 <= k < i ==> !AnyIncluded(t, table[k].1))) by {
        if r != CHAT {
          var i :| 0 <= i < |table[1..]| && table[1..][i].0 == r
            && AnyIncluded(t, table[1..][i].1)
            && (forall k :: 0 <= k < i ==> !AnyIncluded(t, table[1..][k].1));
          assert table[i + 1] == table[1..][i];
          forall k | 0 <= k < i + 1
            ensures !AnyIncluded(t, table[k].1)
          {
            if k > 0 {
              assert table[k] == table[1..][k - 1];
            }
          }
        }
      }
      r
  }

  /** `detectIntent`, written as the source writes it. */
  function DetectIntent(text: string): Intent {
    var t := ToLower(text);
    if Includes(t, "génère une image") || Includes(t, "dessine") || Includes(t, "crée une photo") then GENERATE_IMAGE
    else if Includes(t, "génère une vidéo") || Includes(t, "crée une vidéo") || Includes(t, "anime cette image") then GENERATE_VIDEO
    else if Includes(t, "recherche") || Includes(t, "actualité") || Includes(t, "info récente") then SEARCH
    else if Includes(t, "carte") || Includes(t, "où se trouve") || Includes(t, "itinéraire") then MAPS
    else if Includes(t, "édite cette image") || Includes(t, "modifie la photo") then EDIT_IMAGE
    else if Includes(t, "prononce") || Includes(t, "dis-le") then TTS
    else if Includes(t, "réfléchis") || Includes(t, "analyse complexe") then THINKING
    else CHAT
  }

  lemma AnyIncluded3(t: string, a: string, b: string, c: string)
    ensures AnyIncluded(t, [a, b, c]) <==> Includes(t, a) || Includes(t, b) || Includes(t, c)
  {
    if Includes(t, a) { assert [a, b, c][0] == a; }
    if Includes(t, b) { assert [a, b, c][1] == b; }
    if Includes(t, c) { assert [a, b, c][2] == c; }
  }

  lemma AnyIncluded2(t: string, a: string, b: string)
    ensures AnyIncluded(t, [a, b]) <==> Includes(t, a) || Includes(t, b)
  {
    if Includes(t, a) { assert [a, b][0] == a; }
    if Includes(t, b) { assert [a, b][1] == b; }
  }

  /** One row of the table: the row's intent when one of its keywords
      occurs, else the verdict of the rows after it. */
  lemma FirstMatchRow(table: seq<(Intent, seq<string>)>, t: string)
    requires |table| > 0
    ensures FirstMatch(table, t) == if AnyIncluded(t, table[0].1) then table[0].0 else FirstMatch(table[1..], t)
  {
  }

  lemma Row3(table: seq<(Intent, seq<string>)>, rest: seq<(Intent, seq<string>)>, t: string,
             i: Intent, a: string, b: string, c: string)
    requires table == [(i, [a, b, c])] + rest
    ensures FirstMatch(table, t) ==
      if Includes(t, a) || Includes(t, b) || Includes(t, c) then i else FirstMatch(rest, t)
  {
    AnyIncluded3(t, a, b, c);
    FirstMatchRow(table, t);
    assert table[1..] == rest;
  }

  lemma Row2(table: seq<(Intent, seq<string>)>, rest: seq<(Intent, seq<string>)>, t: string,
             i: Intent, a: string, b: string)
    requires table == [(i, [a, b])] + rest
    ensures FirstMatch(table, t) ==
      if Includes(t, a) || Includes(t, b) then i else FirstMatch(rest, t)
  {
    AnyIncluded2(t, a, b);
    FirstMatchRow(table, t);
    assert table[1..] == rest;
  }

  /** The chain of tests in the source is the priority table: the first
      group (in the order image generation, video generation, search,
      maps, image editing, speech, thinking) with a keyword in the
      lower-cased text wins, and CHAT is returned when none has one. */
  lemma DetectIntentIsFirstMatch(text: string)
    ensures DetectIntent(text) == FirstMatch(KeywordTable, ToLower(text))
  {
    var t := ToLower(text);
    Row3(Groups1, Groups2, t, GENERATE_IMAGE, "génère une image", "dessine", "crée une photo");
    Row3(Groups2, Groups3, t, GENERATE_VIDEO, "génère une vidéo", "crée une vidéo", "anime cette image");
    Row3(Groups3, Groups4, t, SEARCH, "recherche", "actualité", "info récente");
    LaterRows(t);
  }

  /** The table from the maps group on. */
  lemma LaterRows(t: string)
    ensures FirstMatch(Groups4, t) ==
      if Includes(t, "carte") || Includes(t, "où se trouve") || Includes(t, "itinéraire") then MAPS
      else if Includes(t, "édite cette image") || Includes(t, "modifie la photo") then EDIT_IMAGE
      else if Includes(t, "prononce") || Includes(t, "dis-le") then TTS
      else if Includes(t, "réfléchis") || Includes(t, "analyse complexe") then THINKING
      else CHAT
  {
    Row3(Groups4, Groups5, t, MAPS, "carte", "où se trouve", "itinéraire");
    Row2(Groups5, Groups6, t, EDIT_IMAGE, "édite cette image", "modifie la photo");
    Row2(Groups6, Groups7, t, TTS, "prononce", "dis-le");
    Row2(Groups7, [], t, THINKING, "réfléchis", "analyse complexe");
  }

  /** A text with no keyword of any group is plain chat, and a detected
      intent always has one of its keywords in the text and none of an
      earlier group's. */
  lemma DetectIntentSpec(text: string)
    ensures var r := DetectIntent(text);
      var t := ToLower(text);
      && (r == CHAT <==> forall i :: 0 <= i < |KeywordTable| ==> !AnyIncluded(t, KeywordTable[i].1))
      && (r != CHAT ==> exists i :: (0 <= i < |KeywordTable| && KeywordTable[i].0 == r
            && AnyIncluded(t, KeywordTable[i].1)
            && forall k :: 0 <= k < i ==> !AnyIncluded(t, KeywordTable[k].1)))
  {
    DetectIntentIsFirstMatch(text);
    NoChatRow();
    FirstMatchChatIff(KeywordTable, ToLower(text));
  }

  /** No group of the table stands for CHAT. */
  lemma NoChatRow()
    ensures forall i :: 0 <= i < |KeywordTable| ==> KeywordTable[i].0 != CHAT
  {
  }

  /** Over a table without a CHAT row, CHAT means that no group matched. */
  lemma FirstMatchChatIff(table: seq<(Intent, seq<string>)>, t: string)
    requires forall i :: 0 <= i < |table| ==> table[i].0 != CHAT
    ensures FirstMatch(table, t) == CHAT <==> forall i :: 0 <= i < |table| ==> !AnyIncluded(t, table[i].1)
  {
    var r := FirstMatch(table, t);
    if r != CHAT {
      var i :| 0 <= i < |table| && table[i].0 == r && AnyIncluded(t, table[i].1);
    }
  }

  // ---------------------------------------------------------------------
  // Webhook
  // ---------------------------------------------------------------------

  /** What the agent's webhook answered: whether the status was ok, and
      the body parsed as JSON (`None` when it is not JSON, so reading it
      throws). */
  datatype WebhookResponse = WebhookResponse(ok: bool, body: Option<Json>)

  /** The answer handed back to the chat. The text is whatever value was
      chosen, which for a webhook need not be a string. */
  datatype Reply = Reply(text: Json, attachments: seq<Attachment>)

  const Apology: string := "Une erreur technique est survenue. Veuillez réessayer."

  /** The reply text taken from the webhook's JSON: the data itself when it
      is a string, else the first truthy field among output, text and
      message, else the data serialised. Reading a field of `null` throws
      (`Failure`). */
  function WebhookText(eng: Engine, data: Json): (r: Result<Json, string>)
    ensures r.Failure? <==> data == JNull
    ensures data.JStr? ==> r == Success(data)
    ensures !data.JStr? && data != JNull ==>
      r.Success? &&
      if Truthy(Get(data, "output")) then r.value == Get(data, "output").value
      else if Truthy(Get(data, "text")) then r.value == Get(data, "text").value
      else if Truthy(Get(data, "message")) then r.value == Get(data, "message").value
      else r.value == JStr(eng.stringify(data))
  {
    if data.JStr? then Success(data)
    else if data == JNull then Failure("TypeError")
    else if Truthy(Get(data, "output")) then Success(Get(data, "output").value)
    else if Truthy(Get(data, "text")) then Success(Get(data, "text").value)
    else if Truthy(Get(data, "message")) then Success(Get(data, "message").value)
    else Success(JStr(eng.stringify(data)))
  }

  /** The fields a webhook reply may carry its text in, by priority. */
  const ReplyFields: seq<string> := ["output", "text", "message"]

  /** The value of the first field of `fields` that is truthy in `data`. */
  function FirstTruthy(data: Json, fields: seq<string>): (r: Option<Json>)
    requires data != JNull
    ensures r.None? <==> forall i :: 0 <= i < |fields| ==> !Truthy(Get(data, fields[i]))
    ensures r.Some? ==> exists i :: (0 <= i < |fields| && Get(data, fields[i]) == r
      && Truthy(r) && forall k :: 0 <= k < i ==> !Truthy(Get(data, fields[k])))
  {
    if |fields| == 0 then None
    else if Truthy(Get(data, fields[0])) then Get(data, fields[0])
    else
      var r := FirstTruthy(data, fields[1..]);
      assert forall i :: 1 <= i < |fields| ==> fields[i] == fields[1..][i - 1];
      assert r.Some? ==> exists i :: (0 <= i < |fields| && Get(data, fields[i]) == r
        && Truthy(r) && forall k :: 0 <= k < i ==> !Truthy(Get(data, fields[k]))) by {
        if r.Some? {
          var i :| 0 <= i < |fields[1..]| && Get(data, fields[1..][i]) == r
            && Truthy(r) && forall k :: 0 <= k < i ==> !Truthy(Get(data, fields[1..][k]));
          assert Get(data, fields[i + 1]) == r;
          forall k | 0 <= k < i + 1
            ensures !Truthy(Get(data, fields[k]))
          {
            if k > 0 {
              assert fields[k] == fields[1..][k - 1];
            }
          }
        }
      }
      r
  }

  /** The reply text of a webhook object is the first truthy field among
      output, text and message, and the serialised data when none is:
      never an empty or falsy field while a later field has text. */
  lemma WebhookTextIsFirstTruthy(eng: Engine, data: Json)
    requires !data.JStr? && data != JNull
    ensures WebhookText(eng, data) == Success(
      match FirstTruthy(data, ReplyFields)
      case Some(v) => v
      case None => JStr(eng.stringify(data)))
  {
    var f1 := ReplyFields[1..];
    var f2 := f1[1..];
    assert f1 == ["text", "message"] && f2 == ["message"] && f2[1..] == [];
    assert FirstTruthy(data, f2) == if Truthy(Get(data, "message")) then Get(data, "message") else None;
    assert FirstTruthy(data, f1) == if Truthy(Get(data, "text")) then Get(data, "text") else FirstTruthy(data, f2);
    assert FirstTruthy(data, ReplyFields)
        == if Truthy(Get(data, "output")) then Get(data, "output") else FirstTruthy(data, f1);
  }

  /** The webhook step: `None` when processing goes on locally, otherwise
      the reply or the failure that the outer catch turns into the
      apology. `response` is `None` when the request itself fails. */
  function WebhookStep(eng: Engine, webhookUrl: Option<string>, response: Option<WebhookResponse>)
    : (r: Option<Result<Reply, string>>)
  {
    if webhookUrl.None? || webhookUrl.value == "" then None
    else if response.None? then Some(Failure("fetch failed"))
    else if !response.value.ok then None
    else if response.value.body.None? then Some(Failure("invalid JSON"))
    else match WebhookText(eng, response.value.body.value)
      case Success(t) => Some(Success(Reply(t, [])))
      case Failure(e) => Some(Failure(e))
  }

  /** The webhook answers only when a URL is set and the response is ok;
      an unset URL or a non-ok status falls through to local handling. */
  lemma WebhookTakenIff(eng: Engine, webhookUrl: Option<string>, response: Option<WebhookResponse>)
    ensures (WebhookStep(eng, webhookUrl, response).Some? && WebhookStep(eng, webhookUrl, response).value.Success?)
      <==> (&& webhookUrl.Some? && webhookUrl.value != ""
            && response.Some? && response.value.ok
            && response.value.body.Some? && response.value.body.value != JNull)
    ensures webhookUrl.None? || webhookUrl == Some("") ==> WebhookStep(eng, webhookUrl, response).None?
    ensures response.Some? && !response.value.ok ==> WebhookStep(eng, webhookUrl, response).None?
  {
  }

  // ---------------------------------------------------------------------
  // Handler chain
  // ---------------------------------------------------------------------

  /** The handler whose answer is returned. */
  datatype Handler =
    | VideoGeneration | ImageGeneration | ImageEditing | Transcription
    | VideoNotice | Speech | TextChat

  predicate HasKind(atts: seq<Attachment>, k: AttachmentKind) {
    exists i :: 0 <= i < |atts| && atts[i].kind == k
  }

  /** Which handler answers. Image editing answers only when its response
      holds an image and speech only when its response holds audio; in the
      other case the chain goes on to the next handler. */
  function Dispatch(intent: Intent, atts: seq<Attachment>, editProducedImage: bool, speechProducedAudio: bool)
    : (h: Handler)
    ensures intent == GENERATE_VIDEO <==> h == VideoGeneration
    ensures intent == GENERATE_IMAGE <==> h == ImageGeneration
    ensures h == ImageEditing <==> intent == EDIT_IMAGE && HasKind(atts, ImageKind) && editProducedImage
    ensures h == TextChat <==>
      && intent != GENERATE_VIDEO && intent != GENERATE_IMAGE
      && !(intent == EDIT_IMAGE && HasKind(atts, ImageKind) && editProducedImage)
      && !HasKind(atts, AudioKind) && !HasKind(atts, VideoKind)
      && !(intent == TTS && speechProducedAudio)
  {
    if intent == GENERATE_VIDEO then VideoGeneration
    else if intent == GENERATE_IMAGE then ImageGeneration
    else if intent == EDIT_IMAGE && HasKind(atts, ImageKind) && editProducedImage then ImageEditing
    else if HasKind(atts, AudioKind) then Transcription
    else if HasKind(atts, VideoKind) then VideoNotice
    else if intent == TTS && speechProducedAudio then Speech
    else TextChat
  }

  // ---------------------------------------------------------------------
  // Text-chat request
  // ---------------------------------------------------------------------

  datatype Tool = GoogleSearch | GoogleMaps

  datatype Part = TextPart(text: string) | InlinePart(mimeType: string, data: Option<string>)

  datatype Content = Content(role: MessageRole, parts: seq<Part>)

  datatype ChatRequest = ChatRequest(
    model: string,
    systemInstruction: string,
    temperature: real,
    tools: seq<Tool>,
    thinkingBudget: Option<nat>,
    contents: seq<Content>)

  const FlashModel: string := "gemini-2.5-flash"
  const ProModel: string := "gemini-3-pro-preview"
  const ThinkingBudget: nat := 1024
  const LongMessage: nat := 200

  /** The inline parts of the image attachments, in attachment order. */
  function ImageParts(atts: seq<Attachment>): (ps: seq<Part>)
    ensures |ps| <= |atts|
    ensures forall j :: 0 <= j < |ps| ==> ps[j].InlinePart?
  {
    if |atts| == 0 then []
    else
      var a := atts[0];
      var here := if a.kind == ImageKind then
        [InlinePart(if a.mimeType.Some? && a.mimeType.value != "" then a.mimeType.value else "image/png", a.data)]
      else [];
      here + ImageParts(atts[1..])
  }

  /** Image parts of a concatenation are those of each half in turn: the
      parts keep the attachments' order. */
  lemma {:induction false} ImagePartsAppend(a: seq<Attachment>, b: seq<Attachment>)
    ensures ImageParts(a + b) == ImageParts(a) + ImageParts(b)
    decreases |a|
  {
    if |a| > 0 {
      assert (a + b)[0] == a[0];
      assert (a + b)[1..] == a[1..] + b;
      ImagePartsAppend(a[1..], b);
    } else {
      assert a + b == b;
    }
  }

  /** There is an image part exactly when there is an image attachment. */
  lemma {:induction false} ImagePartsEmptyIff(atts: seq<Attachment>)
    ensures ImageParts(atts) == [] <==> !HasKind(atts, ImageKind)
    decreases |atts|
  {
    if |atts| > 0 {
      ImagePartsEmptyIff(atts[1..]);
      if HasKind(atts[1..], ImageKind) {
        var i :| 0 <= i < |atts[1..]| && atts[1..][i].kind == ImageKind;
        assert atts[i + 1].kind == ImageKind;
      }
      if HasKind(atts, ImageKind) && atts[0].kind != ImageKind {
        var i :| 0 <= i < |atts| && atts[i].kind == ImageKind;
        assert atts[1..][i - 1].kind == ImageKind;
      }
    }
  }

  function HistoryContent(m: Message): Content {
    Content(if m.role == UserRole then UserRole else ModelRole, [TextPart(m.content)])
  }

  function HistoryContents(history: seq<Message>): (cs: seq<Content>)
    ensures |cs| == |history|
    ensures forall i :: 0 <= i < |history| ==> cs[i] == HistoryContent(history[i])
  {
    seq(|history|, i requires 0 <= i < |history| => HistoryContent(history[i]))
  }

  /** The request of the text-chat handler. */
  function BuildChatRequest(agent: Agent, history: seq<Message>, message: string,
                            atts: seq<Attachment>, intent: Intent): ChatRequest
  {
    var tools := if intent == SEARCH then [GoogleSearch] else if intent == MAPS then [GoogleMaps] else [];
    var thinking := intent == THINKING || Utf16Length(message) > LongMessage;
    var model0 := if thinking then ProModel else FlashModel;
    var hasImage := HasKind(atts, ImageKind);
    var model := if hasImage && model0 == FlashModel then ProModel else model0;
    var current := Content(UserRole, [TextPart(message)] + ImageParts(atts));
    ChatRequest(model, agent.systemInstruction, 0.7, tools,
      if thinking then Some(ThinkingBudget) else None,
      HistoryContents(history) + [current])
  }

  /** Search and maps grounding each set exactly their own tool, and no
      other intent sets one. */
  lemma ToolsSpec(agent: Agent, history: seq<Message>, message: string, atts: seq<Attachment>, intent: Intent)
    ensures var r := BuildChatRequest(agent, history, message, atts, intent);
      && (intent == SEARCH ==> r.tools == [GoogleSearch])
      && (intent == MAPS ==> r.tools == [GoogleMaps])
      && (intent != SEARCH && intent != MAPS ==> r.tools == [])
  {
  }

  /** Thinking, with its budget of 1024, is on exactly for the THINKING
      intent or a message over 200 UTF-16 code units; the flash model is used
      exactly when thinking is off and there is no image. */
  lemma ModelSpec(agent: Agent, history: seq<Message>, message: string, atts: seq<Attachment>, intent: Intent)
    ensures var r := BuildChatRequest(agent, history, message, atts, intent);
      && (r.thinkingBudget == Some(1024) <==> intent == THINKING || Utf16Length(message) > 200)
      && (r.thinkingBudget.Some? ==> r.model == "gemini-3-pro-preview")
      && (HasKind(atts, ImageKind) ==> r.model == "gemini-3-pro-preview")
      && (r.model == "gemini-2.5-flash" <==> !(intent == THINKING || Utf16Length(message) > 200) && !HasKind(atts, ImageKind))
      && r.temperature == 0.7 && r.systemInstruction == agent.systemInstruction
  {
  }

  /** The threshold counts code units, not characters: more than 100
      astral characters, such as emoji, already switch thinking on. */
  lemma AstralMessageThinks(agent: Agent, history: seq<Message>, message: string, atts: seq<Attachment>, intent: Intent)
    requires |message| > 100
    requires forall i :: 0 <= i < |message| ==> IsAstral(message[i])
    ensures BuildChatRequest(agent, history, message, atts, intent).thinkingBudget == Some(1024)
  {
    Utf16LengthAllAstral(message);
  }

  /** The contents are the history, role for role and text for text,
      followed by the current user turn: its text first, then one inline
      part per image attachment. */
  lemma ContentsSpec(agent: Agent, history: seq<Message>, message: string, atts: seq<Attachment>, intent: Intent)
    ensures var cs := BuildChatRequest(agent, history, message, atts, intent).contents;
      && |cs| == |history| + 1
      && (forall i :: 0 <= i < |history| ==>
            cs[i].role == history[i].role && cs[i].parts == [TextPart(history[i].content)])
      && cs[|history|].role == UserRole
      && cs[|history|].parts[0] == TextPart(message)
      && cs[|history|].parts[1..] == ImageParts(atts)
      && (|cs[|history|].parts| == 1 <==> !HasKind(atts, ImageKind))
  {
    var cs := BuildChatRequest(agent, history, message, atts, intent).contents;
    assert cs[|history|].parts == [TextPart(message)] + ImageParts(atts);
    ImagePartsEmptyIff(atts);
  }

  // ---------------------------------------------------------------------
  // Answers
  // ---------------------------------------------------------------------

  datatype InlineData = InlineData(mimeType: string, data: string)

  /** A grounding source; an empty uri is a missing one. */
  datatype Source = Source(title: string, uri: string)

  /** What the remote calls returned on this request. `fails` says that a
      call the chosen path made threw. */
  datatype Backend = Backend(
    fails: bool,
    videoUri: Option<string>,
    generatedParts: seq<Option<InlineData>>,
    editedParts: seq<Option<InlineData>>,
    transcript: string,
    /** The inline data of the first part of the speech response. */
    speech: Option<string>,
    chatText: string,
    groundingChunks: Option<seq<Source>>)

  /** The first part carrying inline data. */
  function FirstInline(parts: seq<Option<InlineData>>): (r: Option<InlineData>)
    ensures r.Some? ==> r in parts
    ensures r.None? <==> forall i :: 0 <= i < |parts| ==> parts[i].None?
  {
    if |parts| == 0 then None
    else if parts[0].Some? then parts[0]
    else FirstInline(parts[1..])
  }

  /** The Markdown link of one source: `[title](uri)`. */
  function Link(c: Source): (l: string)
    ensures |l| > 0 && l[0] == '['
  {
    "[" + c.title + "](" + c.uri + ")"
  }

  /** The links of the chunks that have a uri, in order. */
  function SourceLinks(chunks: seq<Source>): (r: seq<string>)
    ensures |r| <= |chunks|
    ensures forall i :: 0 <= i < |r| ==> |r[i]| > 0 && r[i][0] == '['
  {
    if |chunks| == 0 then []
    else
      var here := if chunks[0].uri != "" then [Link(chunks[0])] else [];
      here + SourceLinks(chunks[1..])
  }

  /** The links of some chunks, joined, are empty only when there are
      none. */
  lemma JoinLinksNonEmpty(chunks: Option<seq<Source>>)
    ensures chunks.Some? && SourceLinks(chunks.value) != [] ==>
      Join(SourceLinks(chunks.value), ", ") != ""
  {
    if chunks.Some? && |SourceLinks(chunks.value)| > 1 {
      var links := SourceLinks(chunks.value);
      assert |Join(links, ", ")| >= |", "|;
    }
  }

  /** `response.text || "Pas de réponse."`, followed by the linked sources
      when there are any. */
  function ChatAnswer(text: string, chunks: Option<seq<Source>>): (a: string)
    ensures text != "" ==> StartsWith(a, text)
    ensures text == "" ==> StartsWith(a, "Pas de réponse.")
    ensures chunks.None? || SourceLinks(chunks.value) == [] ==>
      a == (if text != "" then text else "Pas de réponse.")
    ensures chunks.Some? && SourceLinks(chunks.value) != [] ==>
      a == (if text != "" then text else "Pas de réponse.")
           + "\n\nSources: " + Join(SourceLinks(chunks.value), ", ")
  {
    var base := if text != "" then text else "Pas de réponse.";
    var links := if chunks.Some? then Join(SourceLinks(chunks.value), ", ") else "";
    JoinLinksNonEmpty(chunks);
    var a := if links != "" then base + "\n\nSources: " + links else base;
    assert a[..|base|] == base;
    a
  }

  /** Chunks without any uri add nothing to the answer. */
  lemma {:induction false} NoUriNoLinks(chunks: seq<Source>)
    requires forall i :: 0 <= i < |chunks| ==> chunks[i].uri == ""
    ensures SourceLinks(chunks) == []
    decreases |chunks|
  {
    if |chunks| > 0 {
      NoUriNoLinks(chunks[1..]);
    }
  }

  /** Every chunk with a uri is linked. */
  lemma {:induction false} UriChunkLinked(chunks: seq<Source>, i: nat)
    requires i < |chunks| && chunks[i].uri != ""
    ensures Link(chunks[i]) in SourceLinks(chunks)
    decreases |chunks|
  {
    if i > 0 {
      UriChunkLinked(chunks[1..], i - 1);
    }
  }

  /** A grounded answer with a chunk that has a uri ends with the sources
      line, and that chunk's link is in it. */
  lemma GroundedAnswerCitesSources(text: string, chunks: seq<Source>, i: nat)
    requires i < |chunks| && chunks[i].uri != ""
    ensures var links := SourceLinks(chunks);
      && Link(chunks[i]) in links
      && ChatAnswer(text, Some(chunks))
         == (if text != "" then text else "Pas de réponse.") + "\n\nSources: " + Join(links, ", ")
  {
    UriChunkLinked(chunks, i);
  }

  function TextReply(s: string): Reply {
    Reply(JStr(s), [])
  }

  /** The local handlers, once the webhook has not answered. */
  function Local(apiKey: string, agent: Agent, history: seq<Message>, message: string,
                 atts: seq<Attachment>, be: Backend): Reply
  {
    if be.fails then TextReply(Apology)
    else
      var intent := DetectIntent(message);
      var edited := FirstInline(be.editedParts);
      var h := Dispatch(intent, atts, edited.Some?, be.speech.Some? && be.speech.value != "");
      match h
      case VideoGeneration =>
        if be.videoUri.Some? && be.videoUri.value != "" then
          Reply(JStr("Voici la vidéo générée :"),
                [Attachment(GeneratedVideo, None, None, None, Some(be.videoUri.value + "&key=" + apiKey))])
        else TextReply("Désolé, la génération de vidéo a échoué.")
      case ImageGeneration =>
        var generated := FirstInline(be.generatedParts);
        if generated.Some? then
          Reply(JStr("Voici l'image que j'ai créée pour vous :"),
                [Attachment(GeneratedImage, None, None, None,
                   Some("data:" + generated.value.mimeType + ";base64," + generated.value.data))])
        else TextReply("Je n'ai pas pu générer d'image cette fois-ci.")
      case ImageEditing =>
        Reply(JStr("Voici l'image modifiée :"),
              [Attachment(GeneratedImage, None, None, None,
                 Some("data:" + edited.value.mimeType + ";base64," + edited.value.data))])
      case Transcription => TextReply("Transcription: \"" + be.transcript + "\"")
      case VideoNotice =>
        TextReply("L'analyse vidéo approfondie nécessite l'upload via l'API File. (Fonctionnalité simulée pour cet exemple)")
      case Speech => Reply(JStr("Voici l'audio :"), [Attachment(GeneratedAudio, None, None, be.speech, None)])
      case TextChat => TextReply(ChatAnswer(be.chatText, be.groundingChunks))
  }

  /** `generateAgentResponse`. */
  function Respond(eng: Engine, apiKey: string, agent: Agent, history: seq<Message>, message: string,
                   atts: seq<Attachment>, webhook: Option<WebhookResponse>, be: Backend): Reply
  {
    match WebhookStep(eng, agent.webhookUrl, webhook)
    case Some(Success(r)) => r
    case Some(Failure(_)) => TextReply(Apology)
    case None => Local(apiKey, agent, history, message, atts, be)
  }

  /** Every thrown error, from the webhook or from a model call, is
      answered by the fixed apology. */
  lemma FailuresApologise(eng: Engine, apiKey: string, agent: Agent, history: seq<Message>, message: string,
                          atts: seq<Attachment>, webhook: Option<WebhookResponse>, be: Backend)
    requires WebhookStep(eng, agent.webhookUrl, webhook).None? ==> be.fails
    requires WebhookStep(eng, agent.webhookUrl, webhook).Some? ==>
      WebhookStep(eng, agent.webhookUrl, webhook).value.Failure?
    ensures Respond(eng, apiKey, agent, history, message, atts, webhook, be)
      == Reply(JStr("Une erreur technique est survenue. Veuillez réessayer."), [])
  {
  }

  /** A webhook that answers ok with a string sends that string back
      verbatim, whatever the message asks for. */
  lemma WebhookStringVerbatim(eng: Engine, apiKey: string, agent: Agent, history: seq<Message>, message: string,
                              atts: seq<Attachment>, s: string, be: Backend)
    requires agent.webhookUrl.Some? && agent.webhookUrl.value != ""
    ensures Respond(eng, apiKey, agent, history, message, atts,
                    Some(WebhookResponse(true, Some(JStr(s)))), be) == Reply(JStr(s), [])
  {
  }

  /** The chat page passes the history already ending with the user's new
      message, and the request then adds the current turn: the user's text
      is sent twice, as the last two contents. */
  lemma CurrentTurnRepeated(agent: Agent, messages: seq<Message>, userMsg: Message, atts: seq<Attachment>, intent: Intent)
    requires userMsg.role == UserRole
    ensures var cs := BuildChatRequest(agent, messages + [userMsg], userMsg.content, atts, intent).contents;
      && |cs| == |messages| + 2
      && cs[|messages|] == Content(UserRole, [TextPart(userMsg.content)])
      && cs[|messages| + 1].role == UserRole
      && cs[|messages| + 1].parts[0] == TextPart(userMsg.content)
  {
    ContentsSpec(agent, messages + [userMsg], userMsg.content, atts, intent);
    assert (messages + [userMsg])[|messages|] == userMsg;
  }

  /** An edit request whose response holds no image, with no audio or
      video attached and not asking for speech, is answered by the text
      chat. */
  lemma EmptyEditFallsThrough(apiKey: string, agent: Agent, history: seq<Message>, message: string,
                              atts: seq<Attachment>, be: Backend)
    requires !be.fails && DetectIntent(message) == EDIT_IMAGE
    requires forall i :: 0 <= i < |be.editedParts| ==> be.editedParts[i].None?
    requires !HasKind(atts, AudioKind) && !HasKind(atts, VideoKind)
    ensures Local(apiKey, agent, history, message, atts, be)
      == Reply(JStr(ChatAnswer(be.chatText, be.groundingChunks)), [])
  {
  }

  /** A generated video is linked with the API key appended; without a
      video the failure notice is the answer. */
  lemma VideoAnswer(apiKey: string, agent: Agent, history: seq<Message>, message: string,
                    atts: seq<Attachment>, be: Backend)
    requires !be.fails && DetectIntent(message) == GENERATE_VIDEO
    ensures var r := Local(apiKey, agent, history, message, atts, be);
      if be.videoUri.Some? && be.videoUri.value != "" then
        |r.attachments| == 1 && r.attachments[0].kind == GeneratedVideo
        && r.attachments[0].url == Some(be.videoUri.value + "&key=" + apiKey)
      else r == Reply(JStr("Désolé, la génération de vidéo a échoué."), [])
  {
  }
}
