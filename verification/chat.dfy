/** The text-chat half of the agent page (pages/AgentChat.tsx): picking
    attachments, removing them, and sending a message to the agent. File
    reading, object URLs and message ids come from the browser and are
    inputs here. */
module Chat {
  import opened Wrappers
  import opened Text
  import opened Records
  import opened Json
  import Gemini

  // ---------------------------------------------------------------------
  // Attachments
  // ---------------------------------------------------------------------

  /** The attachment type of a picked file, from its MIME type: 'file'
      unless the type starts with image/, video/ or audio/. */
  function ClassifyMime(mime: string): AttachmentKind {
    var k0 := FileKind;
    var k1 := if StartsWith(mime, "image/") then ImageKind else k0;
    var k2 := if StartsWith(mime, "video/") then VideoKind else k1;
    if StartsWith(mime, "audio/") then AudioKind else k2
  }

  /** Each prefix gives its own type, and any other MIME type is a plain
      file. */
  lemma ClassifyMimeSpec(mime: string)
    ensures ClassifyMime(mime) == ImageKind <==> StartsWith(mime, "image/")
    ensures ClassifyMime(mime) == VideoKind <==> StartsWith(mime, "video/")
    ensures ClassifyMime(mime) == AudioKind <==> StartsWith(mime, "audio/")
    ensures ClassifyMime(mime) == FileKind <==>
      !StartsWith(mime, "image/") && !StartsWith(mime, "video/") && !StartsWith(mime, "audio/")
  {
    if StartsWith(mime, "image/") {
      assert mime[0] == 'i';
    }
    if StartsWith(mime, "video/") {
      assert mime[0] == 'v';
    }
  }

  /** `s.split(',')[1]`: the text between the first comma and the next one
      (or the end); `None` (undefined) when there is no comma. */
  function SecondField(s: string): (r: Option<string>)
    ensures r.None? <==> ',' !in s
    ensures r.Some? ==> ',' !in r.value
  {
    match IndexOf(s, ",")
    case None =>
      assert forall i :: 0 <= i < |s| ==> s[i] != ',' by {
        forall i | 0 <= i < |s|
          ensures s[i] != ','
        {
          assert !OccursAt(s, ",", i);
          assert s[i..i + 1] == [s[i]];
        }
      }
      None
    case Some(i) =>
      assert s[i] == s[i..i + 1][0];
      var rest := s[i + 1..];
      match IndexOf(rest, ",")
      case None =>
        assert forall k :: 0 <= k < |rest| ==> rest[k] != ',' by {
          forall k | 0 <= k < |rest|
            ensures rest[k] != ','
          {
            assert !OccursAt(rest, ",", k);
            assert rest[k..k + 1] == [rest[k]];
          }
        }
        Some(rest)
      case Some(j) =>
        var r := rest[..j];
        assert forall k :: 0 <= k < j ==> r[k] != ',' by {
          forall k | 0 <= k < j
            ensures r[k] != ','
          {
            assert !OccursAt(rest, ",", k);
            assert rest[k..k + 1] == [rest[k]];
          }
        }
        Some(r)
  }

  /** The data URL a file reader produces for a MIME type without commas
      gives back exactly the base64 payload. */
  lemma DataUrlPayload(mime: string, payload: string)
    requires ',' !in mime && ',' !in payload
    ensures SecondField("data:" + mime + ";base64," + payload) == Some(payload)
  {
    var head := "data:" + mime + ";base64";
    var s := head + "," + payload;
    assert s == "data:" + mime + ";base64," + payload;
    assert ',' !in head;
    var i := |head|;
    assert OccursAt(s, ",", i) by {
      assert s[i..i + 1] == [s[i]];
    }
    forall k | 0 <= k < i
      ensures !OccursAt(s, ",", k)
    {
      assert s[k] == head[k];
      assert s[k..k + 1] == [s[k]];
    }
    assert IndexOf(s, ",") == Some(i);
    assert s[i + 1..] == payload;
    forall j | 0 <= j
      ensures !OccursAt(payload, ",", j)
    {
      if j < |payload| {
        assert payload[j..j + 1] == [payload[j]];
      }
    }
    assert IndexOf(payload, ",").None?;
  }

  /** A picked file as the browser reports it. */
  datatype PickedFile = PickedFile(name: string, mimeType: string, objectUrl: string)

  /** `handleFileSelect` once the reader has finished: a read that produced
      nothing (an empty result) changes nothing; otherwise one attachment
      is appended, classified by MIME type and carrying the data URL's
      payload. */
  function AddFile(atts: seq<Attachment>, file: PickedFile, readResult: string): (r: seq<Attachment>)
    ensures readResult == "" ==> r == atts
    ensures readResult != "" ==>
      && |r| == |atts| + 1 && r[..|atts|] == atts
      && r[|atts|] == Attachment(ClassifyMime(file.mimeType), Some(file.name), Some(file.mimeType),
                                 SecondField(readResult), Some(file.objectUrl))
  {
    if readResult == "" then atts
    else
      atts + [Attachment(ClassifyMime(file.mimeType), Some(file.name), Some(file.mimeType),
                         SecondField(readResult), Some(file.objectUrl))]
  }

  /** `prev.filter((_, i) => i !== index)`, walking the list with the index
      shifted down as elements are passed. */
  function RemoveAt(atts: seq<Attachment>, index: int): (r: seq<Attachment>)
    ensures |r| <= |atts|
    decreases |atts|
  {
    if |atts| == 0 then []
    else (if index == 0 then [] else [atts[0]]) + RemoveAt(atts[1..], index - 1)
  }

  /** Removing an attachment drops exactly the one at that position and
      keeps the others in order; an index outside the list removes
      nothing. */
  lemma {:induction false} RemoveAtSpec(atts: seq<Attachment>, index: int)
    ensures 0 <= index < |atts| ==> RemoveAt(atts, index) == atts[..index] + atts[index + 1..]
    ensures !(0 <= index < |atts|) ==> RemoveAt(atts, index) == atts
    decreases |atts|
  {
    if |atts| > 0 {
      RemoveAtSpec(atts[1..], index - 1);
      if index == 0 {
        assert atts[index + 1..] == atts[1..];
      } else if 0 < index < |atts| {
        assert atts[..index] == [atts[0]] + atts[1..][..index - 1];
        assert atts[index + 1..] == atts[1..][index..];
      } else {
        assert atts == [atts[0]] + atts[1..];
      }
    }
  }

  // ---------------------------------------------------------------------
  // Sending
  // ---------------------------------------------------------------------

  datatype ChatState = ChatState(
    messages: seq<Message>,
    input: string,
    attachments: seq<Attachment>,
    loading: bool)

  /** The guard of `handleSendMessage`: nothing is sent while an answer is
      pending, nor when the input is blank and nothing is attached. */
  predicate CanSend(st: ChatState) {
    !((Trim(st.input) == "" && |st.attachments| == 0) || st.loading)
  }

  lemma CanSendIff(st: ChatState)
    ensures CanSend(st) <==> !st.loading && (!IsBlank(st.input) || |st.attachments| > 0)
  {
    TrimEmptyIff(st.input);
  }

  /** The arguments of the agent call a send makes. */
  datatype Outgoing = Outgoing(history: seq<Message>, text: string, attachments: seq<Attachment>)

  /** The send: the user's message (with the attachments) is appended, the
      input and attachments are cleared and loading starts; the agent is
      called with the messages so far followed by that message. */
  function Send(st: ChatState, id: string): (r: (ChatState, Option<Outgoing>))
  {
    if !CanSend(st) then (st, None)
    else
      var userMsg := Message(id, UserRole, st.input, st.attachments);
      (ChatState(st.messages + [userMsg], "", [], true),
       Some(Outgoing(st.messages + [userMsg], st.input, st.attachments)))
  }

  /** A refused send changes nothing and calls nothing; an accepted one
      appends exactly the user's message, clears the composer, sets
      loading, and passes the input and attachments unchanged. */
  lemma SendSpec(st: ChatState, id: string)
    ensures var (s, out) := Send(st, id);
      && (!CanSend(st) ==> s == st && out.None?)
      && (CanSend(st) ==>
            && out.Some?
            && |s.messages| == |st.messages| + 1 && s.messages[..|st.messages|] == st.messages
            && s.messages[|st.messages|] == Message(id, UserRole, st.input, st.attachments)
            && s.input == "" && s.attachments == [] && s.loading
            && out.value.history == s.messages
            && out.value.text == st.input && out.value.attachments == st.attachments)
  {
    var (s, out) := Send(st, id);
    if CanSend(st) {
      assert s.messages[..|st.messages|] == st.messages;
    }
  }

  /** The agent's reply arrives: it is appended as a model message and
      loading ends (the `finally`). A reply text that is not a string is
      shown through the engine's conversion. */
  function Answered(st: ChatState, eng: Engine, reply: Gemini.Reply, id: string): (r: ChatState)
    ensures !r.loading && r.input == st.input && r.attachments == st.attachments
    ensures |r.messages| == |st.messages| + 1 && r.messages[..|st.messages|] == st.messages
    ensures r.messages[|st.messages|].role == ModelRole
    ensures reply.text.JStr? ==> r.messages[|st.messages|].content == reply.text.s
  {
    var content := if reply.text.JStr? then reply.text.s else eng.display(reply.text);
    var m := st.messages + [Message(id, ModelRole, content, reply.attachments)];
    assert m[..|st.messages|] == st.messages;
    st.(messages := m, loading := false)
  }

  /** A full exchange: after a send and its answer, the transcript has
      grown by the user's message and then the agent's, and the page is
      ready again. */
  lemma ExchangeSpec(st: ChatState, eng: Engine, reply: Gemini.Reply, userId: string, modelId: string)
    requires CanSend(st)
    ensures var (s, _) := Send(st, userId);
      var e := Answered(s, eng, reply, modelId);
      && !e.loading && e.input == "" && e.attachments == []
      && |e.messages| == |st.messages| + 2
      && e.messages[..|st.messages|] == st.messages
      && e.messages[|st.messages|] == Message(userId, UserRole, st.input, st.attachments)
      && e.messages[|st.messages| + 1].role == ModelRole
  {
    var u := Message(userId, UserRole, st.input, st.attachments);
    var s := Send(st, userId).0;
    assert s == ChatState(st.messages + [u], "", [], true);
    var e := Answered(s, eng, reply, modelId);
    var n := |st.messages|;
    assert e.messages[..n + 1] == st.messages + [u];
    assert e.messages[..n] == (st.messages + [u])[..n] == st.messages;
    assert e.messages[n] == (st.messages + [u])[n] == u;
  }

  /** The page hands over the history already ending with the new message,
      and the request adds the current turn again: the model receives the
      user's text twice, as its last two contents. */
  lemma SendRepeatsUserTurn(st: ChatState, id: string, agent: Agent)
    requires CanSend(st)
    ensures var out := Send(st, id).1.value;
      var cs := Gemini.BuildChatRequest(agent, out.history, out.text, out.attachments,
                                        Gemini.DetectIntent(out.text)).contents;
      && |cs| == |st.messages| + 2
      && cs[|st.messages|] == Gemini.Content(UserRole, [Gemini.TextPart(st.input)])
      && cs[|st.messages| + 1].role == UserRole
      && cs[|st.messages| + 1].parts[0] == Gemini.TextPart(st.input)
  {
    var userMsg := Message(id, UserRole, st.input, st.attachments);
    Gemini.CurrentTurnRepeated(agent, st.messages, userMsg, st.attachments, Gemini.DetectIntent(st.input));
  }
}
