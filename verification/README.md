# Le Monde à Vous: a Dafny model of the agent platform's core

This project models the decision logic of a React agent platform. Users talk to AI agents by text chat or by a live voice call, buy credits, and sign in against mock accounts. Administrators manage users, webhooks, logs and a knowledge base.

The model keeps the platform's own vocabulary:

- **the voice call** of the agent page: the PCM codec, the base64 transport, the playback scheduler, the capture callback, the call status machine, `cleanupAudio`, the duration timer and `formatDuration`;
- **the chat helpers** of the same page: attachment classification, the send guard and attachment removal;
- **the hash router** and the **route guard**;
- **`generateAgentResponse`**: intent detection, the webhook reply, handler dispatch and the text-chat request;
- **`processIncomingWebhook`**;
- **the admin screens**: the user reducer and search, the workflow console, the log filter and the knowledge-base search;
- **the authentication context**, the **sign-in page**, **checkout** and the **billing page**.

Every operation is a pure function over immutable datatypes. The voice call is a `Call` record advanced by `VoiceCall.Step`, one step per browser or network callback (`StartCall`, `MicGranted`, `SessionOpened`, `CaptureBlock`, `ServerMessage`, `Tick`, `Hangup`, …). `VoiceCall.Run` folds a sequence of such events. Device and network handles are numbered resources, so the proofs can show that none is leaked while each connect's callbacks arrive before the next `startCall`.

Samples and clock readings are `real`. The JavaScript number conversions that matter are written out:

- the Int16 store truncates toward zero and wraps modulo 2^16;
- `Math.ceil` and `Math.abs` are explicit functions;
- `toLowerCase` covers the Latin-1 range.

JSON values are a datatype (`Json.Json`). `JSON.stringify`, `Object.keys`, template-literal conversion and the `TypeError` message are supplied by a `Json.Engine` parameter.

Modules, one per source file or concern:

| module | file | models |
|---|---|---|
| `Wrappers` | wrappers.dfy | `Option` and `Result` |
| `Text` | text.dfy | the JavaScript string operations used: `toLowerCase`, `includes`, `indexOf`, `replace`, `trim`, `startsWith`, `endsWith`, `padStart`, `toString` |
| `Lists` | lists.dfy | `Array.prototype.filter` and its order |
| `Records` | records.dfy | the entities of types.ts |
| `Catalog` | catalog.dfy | agent ids and credit packages of constants.tsx |
| `Json` | json.dfy | parsed JSON values, property access, truthiness and the `or` fallback |
| `Bytes` | bytes.dfy | binary strings |
| `Pcm` | pcm.dfy | `floatTo16BitPCM`, `decodeAudioData` |
| `Base64` | base64.dfy | `btoa`, `atob`, `arrayBufferToBase64`, `base64ToBytes` |
| `Playback` | playback.dfy | the playback cursor |
| `VoiceCall` | voicecall.dfy | the call controller |
| `Chat` | chat.dfy | the text chat of the agent page |
| `Routing` | routing.dfy | App.tsx |
| `Guard` | guard.dfy | ProtectedRoute.tsx |
| `Gemini` | gemini.dfy | geminiService.ts |
| `Webhook` | webhook.dfy | webhookHandler.ts |
| `AdminUsers` | admin_users.dfy | AdminDashboard.tsx |
| `AdminWorkflows` | admin_workflows.dfy | AdminWorkflows.tsx |
| `AdminLogs` | admin_logs.dfy | AdminLogs.tsx |
| `AdminKnowledge` | admin_knowledge.dfy | AdminKnowledge.tsx |
| `AuthContext` | auth_context.dfy | AuthContext.tsx |
| `AuthPage` | auth_page.dfy | Auth.tsx |
| `Checkout` | checkout.dfy | Checkout.tsx |
| `Billing` | billing.dfy | Billing.tsx |

### PCM codec quirks

- **PCM round trip.** Encoding scales non-negative samples by 32767 but decoding divides by 32768, so a round trip is not within 1/32768 of each clamped sample. A positive sample can come back almost 2/32768 away. `Pcm.PcmRoundTrip` proves the bound that does hold: from -2/32768 to 1/32768. `Pcm.PositiveRoundTripExceedsOneQuantum` exhibits a sample more than 1/32768 away.
- **Empty audio payloads.** Decoding fails on an odd byte count, and also on an empty payload: the code then passes a zero frame count to `createBuffer`, which throws. `Pcm.DecodeAudioData` fails in both cases.

### Text kept as written

- **The hang-up summary.** It is kept as the byte string the source file holds at pages/AgentChat.tsx:382 (UTF-8 read as Mac Roman). `VoiceCall.Summary` states only that the text ends with the formatted duration.

### Behaviour kept as written

- `handleUserAction` with DELETE drops every already SUSPENDED user, not only the target (`AdminUsers.DeleteDropsSuspended`). The initial list holds no suspended user, and no action ever creates one that survives. From the page's initial state, DELETE therefore removes exactly its target (`AdminUsers.DeleteRemovesTarget`, `AdminUsers.PreservesNoSuspended`).
- The chat page passes `generateAgentResponse` the history that already ends with the new user message, and the request appends the current turn again. The model receives the user's text twice (`Chat.SendRepeatsUserTurn`).
- The sign-in form's fields are `required` and the email field is `type="email"`, with no `noValidate`, so the browser runs `handleSubmit` only for a non-empty password and an email matching the HTML "valid e-mail address" grammar (`AuthPage.FormValid`, `AuthPage.BlockedFormIgnored`).
- The sign-up mode of the sign-in page calls the same `login` (`AuthPage.ModeIrrelevant`). The two-second timer after a refusal sets IDLE whatever the status is by then (`AuthPage.ErrorTimer`). A scan started meanwhile still hands the credentials it captured to `login`, so a form sent again within two seconds of a refusal shows IDLE, then VERIFYING, then SUCCESS (`AuthPage.ResubmitOutlivesTimer`).
- The context starts at security level `'Fortress' as any`. That string is none of the enumeration's values; `Records.SecurityLevel.OffList` holds it.
- A failed connect (microphone denied, session rejected) sets ENDED without teardown. The new audio context stays held until the next `startCall` releases it (`VoiceCall.FailedConnectKeepsContext`).
- `verify2FA` is the predicate `AuthContext.Verify2FA`, true exactly for the code "123456" (`AuthContext.OneCodeVerifies`).

## Model

| member | source | states |
|---|---|---|
| Pcm.Clamp | pages/AgentChat.tsx:32 | the clamped sample lies in [-1, 1], equals the input inside that range and the nearest bound outside it |
| Pcm.Trunc | pages/AgentChat.tsx:33 | the Int16 store truncates toward zero: the result is the integer part on the side of zero |
| Pcm.Wrap16 | pages/AgentChat.tsx:33 | the store's reduction lands in the signed 16-bit range and is congruent to its input modulo 65536 |
| Pcm.SampleToInt16Spec | pages/AgentChat.tsx:32-33 | negatives scale by 32768 and non-negatives by 32767; the stored value is in [-32768, 32767], never wraps, and is within one unit of the scaled sample on the side of zero |
| Pcm.Int16BytesRoundTrip | pages/AgentChat.tsx:35 | the two little-endian bytes of a 16-bit value read back as that value |
| Pcm.EncodeBlock | pages/AgentChat.tsx:29-36 | the output is the PCM encoding of the block: two bytes per sample, each pair holding the converted sample |
| Pcm.EncodeBlockIsPcm | pages/AgentChat.tsx:29-36 | any byte sequence built sample by sample in that way is a PCM encoding |
| Pcm.IsPcmOfUnique | pages/AgentChat.tsx:29-36 | a block has exactly one PCM encoding |
| Pcm.FloatTo16BitPcm | pages/AgentChat.tsx:29-36 | the loop over the samples produces exactly the block's encoding |
| Pcm.DecodeAudioData | pages/AgentChat.tsx:39-56 | decoding fails exactly on an odd or empty byte count; otherwise it yields byteLength/2 samples, each the stored Int16 divided by 32768 and lying in [-1, 1) |
| Pcm.Duration | pages/AgentChat.tsx:42-47 | a buffer lasts its sample count divided by 24000 seconds, never negative |
| Pcm.SampleRoundTrip | pages/AgentChat.tsx:29-53 | encoding then decoding one sample gives the clamped sample to within -2/32768 .. 1/32768 |
| Pcm.PcmRoundTrip | pages/AgentChat.tsx:29-53 | decoding an encoded block succeeds when it is non-empty, keeps its length, and every sample is within that bound of the clamped input |
| Pcm.PositiveRoundTripExceedsOneQuantum | pages/AgentChat.tsx:33 | the sample 65533/65534 comes back more than 1/32768 below itself |
| Bytes.BinaryString | pages/AgentChat.tsx:19-24 | the binary string has one character per byte, with code point equal to the byte |
| Bytes.CharCodes | pages/AgentChat.tsx:10-14 | the char codes of a binary string are its bytes, one per character |
| Bytes.CharCodesOfBinaryString | pages/AgentChat.tsx:8-26 | char codes undo the binary string |
| Bytes.BinaryStringOfCharCodes | pages/AgentChat.tsx:8-26 | the binary string undoes char codes |
| Base64.Encode | pages/AgentChat.tsx:25 | base64 text has four characters per started group of three bytes, as in section 4 of RFC 4648 |
| Base64.DecodeBody | pages/AgentChat.tsx:9 | decoding unpadded text succeeds exactly when every character is in the alphabet, giving three bytes per four characters |
| Base64.StripPadding | pages/AgentChat.tsx:9 | the forgiving decoder removes at most two characters, all from the end |
| Base64.ArrayBufferToBase64 | pages/AgentChat.tsx:18-26 | a binary string never makes `btoa` throw, so every buffer has an encoding |
| Base64.DecodeEncodeBody | pages/AgentChat.tsx:8-26 | decoding the unpadded encoding of any byte sequence gives it back |
| Base64.QuantumRoundTrip | pages/AgentChat.tsx:8-26 | one 24-bit group, split into four alphabet characters and read back, is unchanged |
| Base64.TransportRoundTrip | pages/AgentChat.tsx:8-26 | `base64ToBytes(arrayBufferToBase64(b)) == b` for every byte sequence |
| Playback.Schedule | pages/AgentChat.tsx:251-254 | a buffer starts at max(now, cursor), no earlier than either, and the cursor moves to its end |
| Playback.PlayPayload | pages/AgentChat.tsx:240-258 | a payload is played exactly when it decodes to a non-empty even-length buffer; it then starts at the later of now and the cursor, and the cursor moves on by the decoded buffer's duration |
| Playback.EvenPayloadIsPlayed | pages/AgentChat.tsx:240-258 | the base64 of a whole, non-empty number of samples is always played |
| Playback.EvenPayloadPlacement | pages/AgentChat.tsx:240-258 | the transport's encoding of a whole number of samples is placed at the later of the clock reading and the cursor, for half as many samples as bytes |
| Playback.OddPayloadIsDropped | pages/AgentChat.tsx:243-244 | an odd number of bytes is never played, whatever the clock says |
| Playback.RunOrdered | pages/AgentChat.tsx:251-254 | over any arrivals the cursor never decreases and every buffer starts no earlier than its arrival time and the previous cursor |
| Playback.RunGapless | pages/AgentChat.tsx:251-254 | a buffer arriving before the previous one ends starts exactly where it ends |
| Playback.BurstBackToBack | pages/AgentChat.tsx:251-254 | buffers arriving at one clock reading are laid end to end from max(now, cursor) |
| VoiceCall.Init | pages/AgentChat.tsx:136-140 | the first render holds no resource, and the call is active exactly in call mode |
| VoiceCall.Cleanup | pages/AgentChat.tsx:149-170 | teardown clears all five refs, releases exactly the held kinds in teardown order, frees exactly the held resources and changes nothing else |
| VoiceCall.CleanupIdempotent | pages/AgentChat.tsx:149-170 | a second teardown releases nothing and changes nothing |
| VoiceCall.HeldAmongSpec | pages/AgentChat.tsx:149-170 | the kinds released are exactly the held ones, in teardown order |
| VoiceCall.CleanupReleasesOnlyHeld | pages/AgentChat.tsx:149-170 | teardown releases every held resource once, in the order session, processor, source, stream, context, and nothing that is not held |
| VoiceCall.StartCallSpec | pages/AgentChat.tsx:142-180 | startCall makes the call active and CONNECTING at 0 s; after teardown only the new audio context is held, and the playback cursor is its clock |
| VoiceCall.OnlyOpenConnects | pages/AgentChat.tsx:198-200 | no event but `onopen` makes a call CONNECTED |
| VoiceCall.EndedOnlyBy | pages/AgentChat.tsx:262-377 | only close, error, a failed connect or hangup make a call ENDED |
| VoiceCall.EndingEvents | pages/AgentChat.tsx:262-377 | each of those events does end the call |
| VoiceCall.TickSpec | pages/AgentChat.tsx:281-289 | a tick adds exactly one second while active and CONNECTED and changes nothing otherwise |
| VoiceCall.DurationOnlyTicks | pages/AgentChat.tsx:142-391 | every other event keeps the duration, except startCall and the delayed reset, which set it to 0 |
| VoiceCall.HangupResetSpec | pages/AgentChat.tsx:387-391 | after the delayed reset the call is inactive, CONNECTING, at 0 s |
| VoiceCall.HangupSpec | pages/AgentChat.tsx:375-385 | hanging up releases every ref, sets ENDED and appends one summary ending with the formatted duration |
| VoiceCall.Capture | pages/AgentChat.tsx:206-230 | a muted block changes nothing; an unmuted one sets the level and appends exactly one 'audio/pcm;rate=16000' send of the block's base64 PCM when the session ref is set, and none otherwise |
| VoiceCall.MutedCaptureIsSilent | pages/AgentChat.tsx:207 | a block seen as muted causes no send and no level change |
| VoiceCall.UnmutedCaptureSendsOnce | pages/AgentChat.tsx:206-230 | an unmuted block with a session sets the level and adds exactly one send, whose payload decodes back to the block's PCM bytes |
| VoiceCall.UnmutedCaptureWithoutSession | pages/AgentChat.tsx:223-230 | without a session ref the block only updates the level |
| VoiceCall.MuteToggleNotSeen | pages/AgentChat.tsx:207 | toggling mute during a call does not change what the capture callback sees |
| VoiceCall.Receive | pages/AgentChat.tsx:239-260 | exactly a non-empty payload that decodes is played: its placement is appended once, the cursor moves to its end and the speaking level is set; any other message changes nothing |
| VoiceCall.ReceiveSchedules | pages/AgentChat.tsx:239-258 | the cursor never moves back; a buffer is scheduled exactly when the payload is playable, starting at the later of the clock reading and the cursor, and otherwise nothing changes |
| VoiceCall.ReceivePlays | pages/AgentChat.tsx:239-258 | the agent's audio, as the transport carries it, is always played: one buffer of half as many samples as bytes at 24 kHz, laid after what is scheduled |
| VoiceCall.InitInv | pages/AgentChat.tsx:136-140 | the first render satisfies the resource invariant |
| VoiceCall.StepInv | pages/AgentChat.tsx:149-397 | every callback keeps the invariant: each live resource is held by exactly one ref, refs hold only live resources, and a ref is set only when clear |
| VoiceCall.RunInv | pages/AgentChat.tsx:149-397 | every event sequence keeps the invariant |
| VoiceCall.CleanupReleasesAll | pages/AgentChat.tsx:149-174 | from any reachable state teardown leaves no live resource |
| VoiceCall.FailedConnectKeepsContext | pages/AgentChat.tsx:172-277 | a denied microphone ends the call with the new audio context still held and live, and the next startCall releases it |
| VoiceCall.ConnectAndOpen | pages/AgentChat.tsx:172-272 | the connect sequence with every callback succeeding leaves the call active, CONNECTED and at 0 s |
| VoiceCall.ConnectThenTicks | pages/AgentChat.tsx:172-289 | connecting and then n ticks leave the call CONNECTED at n seconds, from any state |
| VoiceCall.FiveSecondCall | pages/AgentChat.tsx:142-295 | a connected call after five ticks shows "0:05" |
| VoiceCall.RunSplit | pages/AgentChat.tsx:135-397 | running two event sequences one after the other is running their concatenation |
| VoiceCall.RunTicks | pages/AgentChat.tsx:281-289 | n ticks of a connected call add n seconds and nothing else |
| VoiceCall.FormatDuration | pages/AgentChat.tsx:291-295 | the text is at least four characters long, with the colon third from the end |
| VoiceCall.FormatDurationRoundTrip | pages/AgentChat.tsx:291-295 | the text is digits, a colon and two digits below 60; minutes × 60 + seconds read back gives the duration |
| Text.NatToStringRoundTrip | pages/AgentChat.tsx:292-294 | reading back the decimal digits of a number gives the number |
| Text.PadStart2Value | pages/AgentChat.tsx:294 | zero-padding to two digits keeps the value |
| Text.ClockReadBack | pages/AgentChat.tsx:294 | minutes and two-digit seconds, joined by a colon, split back into those two numbers |
| Chat.ClassifyMimeSpec | pages/AgentChat.tsx:312-315 | the attachment type is image, video or audio exactly when the MIME type has that prefix, and file otherwise |
| Chat.SecondField | pages/AgentChat.tsx:311 | `split(',')[1]` is undefined exactly when there is no comma, and never contains a comma |
| Chat.DataUrlPayload | pages/AgentChat.tsx:311 | the field taken from a data URL is its base64 payload |
| Chat.AddFile | pages/AgentChat.tsx:305-328 | an empty read changes nothing; otherwise exactly one classified attachment carrying the payload is appended |
| Chat.RemoveAtSpec | pages/AgentChat.tsx:330-332 | removal drops exactly the attachment at the index and keeps the rest in order; an index outside the list removes nothing |
| Chat.CanSendIff | pages/AgentChat.tsx:336 | a message can be sent exactly when nothing is pending and the input is not blank or something is attached |
| Text.TrimEmptyIff | pages/AgentChat.tsx:336 | `trim()` gives the empty string exactly when every character is JavaScript white space |
| Text.Utf16Length | services/webhookHandler.ts:52 | a string's `length` counts one UTF-16 code unit per character and two per astral one, so it lies between the character count and twice it |
| Text.Utf16LengthIsCountIff | services/webhookHandler.ts:52 | `length` equals the character count exactly when no character is astral |
| Text.Utf16LengthAllAstral | services/webhookHandler.ts:52 | a string of astral characters only has twice as many code units as characters |
| Text.EmojiIsTwoUnits | services/webhookHandler.ts:52 | one emoji is one character but two code units |
| Chat.SendSpec | pages/AgentChat.tsx:335-357 | a refused send changes nothing and calls nothing; an accepted one appends exactly the user message, clears the composer, starts loading and passes the input and attachments unchanged |
| Chat.Answered | pages/AgentChat.tsx:359-372 | the reply is appended as one model message and loading ends, with the composer untouched |
| Chat.ExchangeSpec | pages/AgentChat.tsx:335-372 | a full exchange grows the transcript by the user's message and then the agent's |
| Chat.SendRepeatsUserTurn | pages/AgentChat.tsx:352-357 | the request built for a send carries the user's text in both of its last two contents |
| Routing.NormalizeHash | App.tsx:21-24 | the path is the hash without its first character, and '/' when that is empty |
| Routing.NavigateRoundTrip | App.tsx:21-35 | navigating to a non-empty path of plain URL characters not starting with '#' and reading the hash back gives the path |
| Routing.NavigateDropsLeadingHash | App.tsx:21-35 | navigating to '#x' reads back 'x': the hash setter strips one leading '#' |
| Routing.NavigateEncodesSpace | App.tsx:21-35 | navigating to 'a b' reads back 'a%20b': the hash setter percent-encodes |
| Routing.CheckoutOverrides | App.tsx:42-56 | a pending checkout for a known package renders that package's checkout on every path |
| Routing.UnknownPackageFallsThrough | App.tsx:42-57 | an empty or unknown package id routes as if none were pending |
| Routing.FixedRoutes | App.tsx:59-89 | '/' and '' give Home, '/auth' gives Auth, '/dashboard' and '/billing' are guarded without roles, '/admin' with SUPER_ADMIN and ADMIN |
| Routing.AgentRouteIff | App.tsx:91-108 | an agent page is shown exactly for a path under '/agent/' whose extracted id is a known agent, in call mode exactly when the path ends with '/call' |
| Routing.NotAFixedRoute | App.tsx:59-91 | a path under '/agent/' is none of the fixed routes |
| Routing.UnknownAgentNotFound | App.tsx:97-119 | an unknown agent id renders the 404 view |
| Routing.UnmatchedNotFound | App.tsx:59-119 | a path matching no route renders the 404 view |
| Routing.NoSlashNoCall | App.tsx:95 | an id without '/' does not contain '/call' |
| Routing.AgentLinkRoundTrip | App.tsx:93-95 | for an id without '/call', the call link '/agent/'+id+'/call' and the chat link '/agent/'+id both give back the id, with the right mode |
| Routing.CatalogCallLinks | App.tsx:91-108 | every catalogue agent is reached in call mode by its call link |
| Catalog.FindPackageIn | App.tsx:43 | a found package is in the list with that id; none is found exactly when no package has it |
| Guard.LoadingShowsSpinner | components/ProtectedRoute.tsx:16-23 | the spinner is shown exactly while loading |
| Guard.RedirectIff | components/ProtectedRoute.tsx:25-28 | the redirect to '/auth' happens exactly when loaded without an authenticated user |
| Guard.DeniedIff | components/ProtectedRoute.tsx:30-48 | access is denied exactly to a signed-in user whose role is missing from a given list |
| Guard.ChildrenIff | components/ProtectedRoute.tsx:30-50 | the page is shown exactly to a signed-in user when there is no list or the role is listed |
| Guard.EmptyListDeniesAll | components/ProtectedRoute.tsx:30 | an empty role list denies everybody, while a missing one lets everybody in |
| Gemini.FirstMatch | services/geminiService.ts:13-23 | the result is the intent of a group with a keyword in the text, and CHAT only when no group has one |
| Gemini.DetectIntentIsFirstMatch | services/geminiService.ts:13-23 | the chain of tests is the first match over the priority table, on the lower-cased text |
| Gemini.DetectIntentSpec | services/geminiService.ts:13-23 | the intent is CHAT exactly when no keyword of any group occurs in the lower-cased text |
| Gemini.FirstMatchChatIff | services/geminiService.ts:13-23 | over a table without a CHAT row, CHAT means that no row matched |
| Gemini.FirstTruthy | services/geminiService.ts:52-58 | the value of the first truthy field of a list, none exactly when no field is truthy |
| Gemini.WebhookTextIsFirstTruthy | services/geminiService.ts:52-58 | the reply text of a webhook object is the first truthy field among output, text and message, else the serialised data |
| Gemini.WebhookTakenIff | services/geminiService.ts:33-61 | the webhook answers exactly when a URL is set and the response is ok with a non-null JSON body; an unset URL or a non-ok status falls through |
| Gemini.Dispatch | services/geminiService.ts:63-212 | the video, image and edit handlers answer exactly for their intents and conditions, and the text chat exactly when no earlier handler does |
| Gemini.ImagePartsAppend | services/geminiService.ts:254-261 | image parts follow the attachments' order |
| Gemini.ImagePartsEmptyIff | services/geminiService.ts:250-262 | there is an image part exactly when there is an image attachment |
| Gemini.ToolsSpec | services/geminiService.ts:224-233 | SEARCH sets exactly the search tool, MAPS exactly the maps tool, and no other intent sets one |
| Gemini.ModelSpec | services/geminiService.ts:217-252 | thinking with budget 1024 is on exactly for THINKING or a message over 200 UTF-16 code units; the flash model is used exactly when thinking is off and there is no image |
| Gemini.AstralMessageThinks | services/geminiService.ts:236 | a message of more than 100 astral characters, such as emoji, is over 200 code units and turns thinking on |
| Gemini.ContentsSpec | services/geminiService.ts:243-264 | the contents are the history, role for role and text for text, then the user turn: its text, then one inline part per image |
| Gemini.CurrentTurnRepeated | services/geminiService.ts:243-264 | a history already ending with the user's message yields that text in both of the last two contents |
| Gemini.FirstInline | services/geminiService.ts:124-133 | the first part with inline data is returned, and none only when no part has it |
| Gemini.ChatAnswer | services/geminiService.ts:273-281 | the answer is the model's text, or 'Pas de réponse.' when empty, followed by a sources line joining the links exactly when some chunk has a uri |
| Gemini.NoUriNoLinks | services/geminiService.ts:276-277 | chunks without a uri add no source link |
| Gemini.UriChunkLinked | services/geminiService.ts:276-278 | every chunk with a uri gives its `[title](uri)` link |
| Gemini.GroundedAnswerCitesSources | services/geminiService.ts:273-281 | an answer grounded by a chunk with a uri ends with the sources line, which holds that chunk's link |
| Gemini.FailuresApologise | services/geminiService.ts:285-288 | every thrown error yields the fixed apology |
| Gemini.WebhookStringVerbatim | services/geminiService.ts:51-59 | a webhook answering ok with a string returns that string, whatever was asked |
| Gemini.EmptyEditFallsThrough | services/geminiService.ts:140-283 | an edit without an edited image, and without audio, video or speech, is answered by the text chat |
| Gemini.VideoAnswer | services/geminiService.ts:71-107 | a generated video is linked with '&key=' and the API key; without one the failure notice is the answer |
| Json.Lookup | services/webhookHandler.ts:29 | a property read gives the last member with that key, and undefined exactly when there is none |
| Json.Or | services/webhookHandler.ts:39 | `a or b` is one of its operands, and truthy exactly when either operand is |
| Json.OrText | services/webhookHandler.ts:40-64 | the fallback is never null, and truthy exactly when the operand is or the fallback text is non-empty |
| Webhook.Log | services/webhookHandler.ts:13-22 | every line the handler writes has source API |
| Webhook.CharacterCount | services/webhookHandler.ts:52 | the count is a text string's length in UTF-16 code units, an array's element count, and 0 when the text is absent or null |
| Webhook.LogShape | services/webhookHandler.ts:13-85 | every call writes exactly two API lines: first the INFO line naming the service, then one that is INFO exactly when the call succeeds; a failed call carries no data |
| Webhook.CaseInsensitive | services/webhookHandler.ts:27 | two spellings of the service with the same lower-case form get the same answer, differing only in the echoed name |
| Webhook.N8nRules | services/webhookHandler.ts:28-43 | n8n succeeds exactly when one of body, message, data, output is truthy, else fails with 'Invalid payload structure' and a WARN line; output is output or message, and workflowId defaults to 'unknown' |
| Webhook.ElevenLabsRules | services/webhookHandler.ts:45-57 | ElevenLabs always succeeds on a non-null payload, counting a text string's length in UTF-16 code units or 0, with voice id defaulting to 'unknown' |
| Webhook.TwilioRules | services/webhookHandler.ts:59-85 | Twilio succeeds exactly with a MessageSid or Body, else fails with 'Missing MessageSid or Body' and a final ERROR line; the status defaults to 'Received' |
| Webhook.GenericRules | services/webhookHandler.ts:69-77 | any other service succeeds with 'Generic event received' and the serialised payload's length in UTF-16 code units |
| Webhook.NullPayloadFails | services/webhookHandler.ts:27-85 | a null payload to a named service throws on the first property read and fails with an ERROR line carrying the message |
| AdminUsers.NonDeleteSpec | pages/AdminDashboard.tsx:45-56 | BAN, UNBAN and VIP keep length and order and change only the target: BAN to BANNED, UNBAN to ACTIVE, VIP to 999999 credits with lifetime access and the status kept |
| AdminUsers.DeleteRemovesTarget | pages/AdminDashboard.tsx:53-56 | with nobody suspended beforehand, DELETE removes exactly the users with the id and keeps the rest in order |
| AdminUsers.DeleteDropsSuspended | pages/AdminDashboard.tsx:46-56 | on every list, DELETE keeps, in order, exactly the users that are neither the target nor already suspended |
| AdminUsers.PreservesNoSuspended | pages/AdminDashboard.tsx:45-56 | no action leaves a suspended user in the list |
| AdminUsers.InitialNoSuspended | pages/AdminDashboard.tsx:20-25 | the initial list has no suspended user |
| AdminUsers.FilterUsers | pages/AdminDashboard.tsx:59-62 | the search keeps exactly the users whose lower-cased name or email contains the lower-cased term |
| AdminUsers.EmptyTermKeepsAll | pages/AdminDashboard.tsx:59-62 | an empty search keeps the whole list |
| AdminUsers.FilterUsersOrder | pages/AdminDashboard.tsx:59-62 | the result is the subsequence of the list at exactly the matching positions |
| AdminUsers.TermCaseIgnored | pages/AdminDashboard.tsx:59-62 | two terms with the same lower-case form find the same users |
| Lists.FilterPositions | components/admin/AdminLogs.tsx:9 | `filter` returns the elements at exactly the satisfying positions, in increasing order |
| Lists.FilterKeepsAll | components/admin/AdminLogs.tsx:9 | a test every element passes keeps the whole sequence |
| AdminWorkflows.VoiceByMention | components/admin/AdminWorkflows.tsx:47 | a workflow whose name or description mentions "ElevenLabs" anywhere is a voice workflow |
| AdminWorkflows.ServiceDefaultsToCustom | components/admin/AdminWorkflows.tsx:64-106 | an unset service type is named 'custom', and distinct types have distinct names |
| AdminWorkflows.UnknownKeyLoadsDefault | components/admin/AdminWorkflows.tsx:86-89 | any key other than the three service names loads the default template, indented by two spaces |
| AdminWorkflows.N8nTemplateAccepted | components/admin/AdminWorkflows.tsx:21-25 | the n8n template passes n8n validation |
| AdminWorkflows.TwilioTemplateAccepted | components/admin/AdminWorkflows.tsx:26-31 | the Twilio template carries a MessageSid and is accepted |
| AdminWorkflows.ElevenLabsTemplateCounted | components/admin/AdminWorkflows.tsx:32-36 | the ElevenLabs template succeeds, counts its text's length in UTF-16 code units and reports the 'unknown' voice |
| AdminWorkflows.StartTest | components/admin/AdminWorkflows.tsx:50-51 | pressing Ping starts testing and clears the previous result |
| AdminWorkflows.TestSpec | components/admin/AdminWorkflows.tsx:49-83 | every test ends with testing off and a result: 500 with 'Invalid JSON payload' when the text does not parse, else 200 or 400 as the handler succeeds, with its message and logs |
| AdminWorkflows.UntypedTestsGeneric | components/admin/AdminWorkflows.tsx:64-68 | a workflow without a service type is tested as a generic webhook, which always answers 200 |
| AdminWorkflows.StatusColorSpec | components/admin/AdminWorkflows.tsx:96-103 | active, inactive and error get three different classes; any other status gets the inactive grey |
| AdminWorkflows.ShowsUrlFieldIff | components/admin/AdminWorkflows.tsx:387 | the generic URL field is shown unless the service type is make or twilio |
| AdminWorkflows.TestUrlWarningSpec | components/admin/AdminWorkflows.tsx:408 | every n8n test URL, whatever its host and path, carries the one-use warning |
| AdminWorkflows.ProductionUrlQuiet | components/admin/AdminWorkflows.tsx:408 | a production URL whose host has no hyphen and whose path does not mention a test webhook carries no warning |
| AdminLogs.FilterLogs | components/admin/AdminLogs.tsx:9 | a level filter shows only logs of that level |
| AdminLogs.AllKeepsEverything | components/admin/AdminLogs.tsx:9 | 'ALL' shows every log unchanged |
| AdminLogs.OnlyThatLevel | components/admin/AdminLogs.tsx:9 | a level filter shows exactly the logs of that level, in their original order |
| AdminLogs.LevelColorSpec | components/admin/AdminLogs.tsx:11-18 | ERROR, WARN and INFO are red, orange and blue, all distinct; every other level, CRITICAL included, is grey |
| AdminLogs.LevelIconSpec | components/admin/AdminLogs.tsx:20-27 | ERROR and WARN share the warning icon, INFO has its own, and the rest get the default |
| AdminKnowledge.FilterDocs | components/admin/AdminKnowledge.tsx:9-12 | the search keeps exactly the documents whose lower-cased title or category contains the lower-cased term |
| AdminKnowledge.EmptyTermKeepsAll | components/admin/AdminKnowledge.tsx:9-12 | an empty term keeps every document |
| AdminKnowledge.FilterDocsOrder | components/admin/AdminKnowledge.tsx:9 | the result is the order-preserving subsequence at exactly the matching positions |
| AdminKnowledge.StatusLabelSpec | components/admin/AdminKnowledge.tsx:88 | 'published' reads Publié, 'draft' Brouillon, and every other status Archivé |
| AuthContext.RestoreSpec | contexts/AuthContext.tsx:55-83 | a stored user is signed in again exactly when not banned, a banned one is erased from storage, and loading always ends |
| AuthContext.LoginSpec | contexts/AuthContext.tsx:85-123 | exactly the two demonstration pairs sign in, the administrator at FORTRESS and the user at HIGH, each persisted; any other pair answers false and only ends loading |
| AuthContext.BannedRefused | contexts/AuthContext.tsx:115-119 | the banned account never signs in, whatever the password |
| AuthContext.LoginPersists | contexts/AuthContext.tsx:62-113 | after a successful sign-in, a reload signs the same user in again |
| AuthContext.LastFour | contexts/AuthContext.tsx:142 | `slice(-4)` keeps at most four characters, all from the end |
| AuthContext.SocialLoginSpec | contexts/AuthContext.tsx:125-153 | a social sign-in always succeeds with a new active, verified USER holding 100 credits and a 30-day trial, persisted, at HIGH |
| AuthContext.OneCodeVerifies | contexts/AuthContext.tsx:155-158 | `verify2FA` accepts exactly one code, the six digits 123456; any other text is refused |
| AuthContext.Logout | contexts/AuthContext.tsx:160-168 | logging out leaves nobody signed in, not loading, at HIGH, with storage emptied |
| AuthContext.LogoutStaysOut | contexts/AuthContext.tsx:62-168 | after logging out a reload signs nobody in |
| AuthContext.UpdateCreditsSpec | contexts/AuthContext.tsx:170-176 | without a user nothing changes; with one only its credits change, by exactly the amount, and the updated user is persisted |
| AuthContext.UpdateCreditsAdds | contexts/AuthContext.tsx:170-176 | two updates add up |
| AuthPage.Enablement | pages/Auth.tsx:121-205 | the social buttons work only when idle, the form also after an error, and nothing starts while a request is in flight or has succeeded |
| AuthPage.Submit | pages/Auth.tsx:47-53 | a form the browser lets through starts the scan, clears the error and queues the typed credentials for the scan's end, changing nothing else; a form it blocks changes nothing |
| AuthPage.BlockedFormIgnored | pages/Auth.tsx:155-185 | an empty password or an email that is not a valid e-mail address never reaches the scan or `login`: page and session stay as they were |
| AuthPage.OneAt | pages/Auth.tsx:162-168 | an address the `type="email"` field accepts holds exactly one '@' |
| AuthPage.DemoEmailsValid | pages/Auth.tsx:162-168 | both demonstration addresses pass the email field's check |
| AuthPage.MalformedEmailsRefused | pages/Auth.tsx:162-168 | the email field refuses an empty value, a value without '@', nothing before or after the '@', a label starting with a hyphen, and a space |
| AuthPage.ScanEnds | pages/Auth.tsx:52-54 | the oldest scan's end shows VERIFYING with the spinner and every button disabled, and hands its captured credentials to the awaited login, whatever the page showed before |
| AuthPage.SignInSpec | pages/Auth.tsx:54-64 | a login's answer signs in exactly for the two demonstration pairs among its captured credentials, showing SUCCESS; otherwise it shows ERROR with the refusal message and nobody new signed in; with no login awaited nothing happens |
| AuthPage.FormRound | pages/Auth.tsx:47-64 | from a settled page whose fields pass the browser's check, the form goes SCANNING, then VERIFYING with every button disabled, then SUCCESS signed in exactly for the typed demonstration pairs, else the refusal |
| AuthPage.ModeIrrelevant | pages/Auth.tsx:47-66 | creating an account goes through the same scan and login as signing in |
| AuthPage.RefusalRecovers | pages/Auth.tsx:61-205 | after any refused login the form can be sent again at once, and after the timer the page is idle |
| AuthPage.ResubmitOutlivesTimer | pages/Auth.tsx:47-66 | a refusal, then a resubmit with good credentials: the refusal's timer shows IDLE with social enabled, the scan's end then shows VERIFYING with every button disabled, and the login ends in SUCCESS, signed in |
| AuthPage.SocialClick | pages/Auth.tsx:68-71 | a social click from an idle page remembers the provider, shows VERIFYING with that button's spinner, disables every button and awaits the social sign-in; otherwise it does nothing |
| AuthPage.SocialAlwaysSucceeds | pages/Auth.tsx:68-74 | from an idle page a social button goes VERIFYING, then always SUCCESS with a new user of that provider signed in |
| AuthPage.ToggleMode | pages/Auth.tsx:229-234 | switching mode clears email, password and error message |
| AuthPage.ToggleTwice | pages/Auth.tsx:229-234 | switching twice returns to the same mode with the fields cleared |
| AuthPage.SuccessRedirects | pages/Auth.tsx:41-74 | every login or social answer that shows SUCCESS leaves someone signed in, so the page redirects to the dashboard |
| Checkout.Credited | pages/Checkout.tsx:26-41 | the credited amount is the credits plus the bonus when there is one |
| Checkout.ChooseMethod | pages/Checkout.tsx:16 | choosing changes only the method, and the chosen method is taken exactly on the selection step or when already current |
| Checkout.LastChoiceWins | pages/Checkout.tsx:16 | of two choices only the last counts, and choosing the current method changes nothing |
| Checkout.Pay | pages/Checkout.tsx:20-22 | paying moves SELECT to PROCESS with processing on |
| Checkout.PurchaseCredits | pages/Checkout.tsx:20-41 | for a signed-in user, paying and the timer end on SUCCESS with processing off and the balance grown by exactly the announced amount, whatever the method |
| Checkout.NoUserNoCredit | pages/Checkout.tsx:25-29 | without a user the payment still ends on SUCCESS, but nothing is credited |
| Checkout.Summary | pages/Checkout.tsx:78-88 | the total is the subtotal plus taxes and equals the price; the bonus badge shows exactly for a non-zero bonus, and credits plus badge are the credited amount |
| Checkout.CatalogCredits | pages/Checkout.tsx:26 | the three packages on sale credit 500, 1800 and 6500 |
| Billing.CeilDiv | pages/Billing.tsx:38 | `Math.ceil(a / d)` is the least r with r·d ≥ a |
| Billing.ExpiredTrialReportsDays | pages/Billing.tsx:34-39 | as written, a trial that ended yesterday shows one day left |
| Billing.TrialDaysLeftAsWritten | pages/Billing.tsx:34-39 | the page's countdown: 0 without a trial, the rounded-up distance in days to the trial's end on either side of it |
| Billing.EndedTrialShowsDays | pages/Billing.tsx:34-39 | as written, every trial that has ended shows at least one day left |
| Billing.TrialDaysLeft | pages/Billing.tsx:34-39 | no trial or an ended one shows 0; otherwise the days left, rounded up |
| Billing.CountdownAgreesWhileActive | pages/Billing.tsx:34-39 | while a trial runs, the corrected countdown equals the page's arithmetic, and once it has ended the two differ |
| Billing.WholeDays | pages/Billing.tsx:34-39 | a trial ending a whole number of days from now shows exactly that number |
| Billing.ReferralLink | pages/Billing.tsx:29 | the link is the signup URL followed by the code |
| Billing.ReferralCodeOf | pages/Billing.tsx:29 | a referral link gives back the text after the signup prefix |
| Billing.ReferralRoundTrip | pages/Billing.tsx:29 | the link gives back its code, and a referral link is always the link of its code |
| Billing.View | pages/Billing.tsx:26-96 | nothing is shown exactly when there is no user; otherwise the balance, a referral link that gives back the user's code, and a trial panel exactly when the user has a trial end, with the page's countdown (at least one day for an ended trial) and a bar at those days as a percentage of 30 |

## Left out

- Web Audio, `getUserMedia`, the ScriptProcessor node, the live client and `sendRealtimeInput` are foreign calls. They appear only as the events and numbered handles of `VoiceCall`.
- The RMS loudness is floating-point arithmetic with a square root. The capture event carries the level as an opaque number.
- IEEE float32 rounding of samples and buffer durations is not modelled: samples and times are exact reals.
- React state batching and async interleaving are not modelled. Each callback is one discrete step, and timers are events (`Tick`, `HangupReset`).
- The `isMuted` read in the capture callback is a stale closure, so it sees the flag as it was at `startCall`. This is modelled as the field `mutedSeen`.
- `atob` strips ASCII white space before decoding. This is not modelled because the transport never produces white space.
- `toLowerCase` is modelled on Latin-1 only. Other characters are left unchanged.
- `JSON.parse`, `JSON.stringify`, `Object.keys` and template-literal conversion are `Json.Engine` parameters, so their results are not computed.
- Log ids and timestamps come from `Date.now`, `Math.random` and `toISOString`. They are not modelled. The `executionId` of a test result is left out for the same reason.
- Message ids and the clock are inputs to the operations that need them.
- `window.location`, `history.replaceState`, the `hashchange` listener, `localStorage` and the clipboard are I/O. Storage is the field `stored` of `AuthContext.Session`, and the "copied" flag is not modelled.
- The ElevenLabs widget script injection is I/O and is left out.
- The network requests of `generateAgentResponse` are I/O. Their outcomes are the inputs `WebhookResponse` and `Backend`, and the video polling loop is collapsed into its final result.
- The presentational parts of every screen are not modelled: layout, icons, other tabs, and the billing page's mock transaction list.
- AuthContext.SocialLoginSpec: the trial end is `now` plus 30 × 86 400 000 ms. This ignores the daylight-saving shift of `setDate`.
- AuthContext.SocialLoginSpec: the restored user's `trialEndsAt`, a string after a JSON round trip, is kept as a number.
- Checkout.Credited: a bonus of 0 would render as "0" in the summary. Every package on sale has either no bonus or a positive one, so this is not modelled.
- Checkout.ChooseMethod: the pay button is not disabled while processing. The overlay covers it, so the model allows payment only from the selection step.
- Chat.Answered: a reply text that is not a string is shown through the engine's conversion, which is left abstract.
- AuthPage.ValidEmail: follows the ASCII grammar of the HTML standard; a browser that converts an internationalised domain to punycode before checking accepts addresses this refuses. The browser strips newlines and surrounding spaces from the typed value before the page sees it, so that step is not modelled.
- AuthPage.SignInSpec: the context's `isLoading` flag, raised while `login` or `socialLogin` is awaited, is not part of the page's session; the session changes only when the answer arrives. Nothing on the sign-in page reads the flag.
- AuthContext.OneCodeVerifies: the one-second delay of `verify2FA` is not modelled; the predicate is its answer.
- Routing.NavigateRoundTrip: the hash setter is modelled on the URL standard's fragment state (one leading '#' removed, tabs and newlines dropped, the fragment percent-encode set encoded as UTF-8); the round trip is promised only for paths of plain characters that do not start with '#', and `Routing.NavigateDropsLeadingHash` and `Routing.NavigateEncodesSpace` show the other cases.
- VoiceCall.StepInv: callbacks of a superseded connect (the microphone grant or session opening of a call a hang-up or a new `startCall` replaced) are not modelled. The invariant, and so the absence of leaks, is proved only when each connect's callbacks arrive before the next `startCall`.
- Template keys such as "constructor" that hit `Object.prototype` are not modelled: `AdminWorkflows.Template` treats only the four own keys as present.

## Findings

| source | as written | input that shows it | evidently intended | confidence | as-written member | corrected member |
|---|---|---|---|---|---|---|
| pages/Billing.tsx:37-38 | `Math.ceil(Math.abs(end - now) / day)` | a trial that ended one day ago shows 1 day left | 0 days once the trial has ended | not executed | Billing.ExpiredTrialReportsDays | Billing.TrialDaysLeft |

`Billing.TrialDaysLeftAsWritten` is the countdown as written. `Billing.ExpiredTrialReportsDays` proves that it reports one day for a trial that ended a day ago. `Billing.TrialDaysLeft` is the corrected countdown: zero once the trial has ended, the rounded-up days otherwise. The billing view `Billing.View` renders the countdown as written, as the page does. `Billing.CountdownAgreesWhileActive` proves that the two agree while the trial runs.
