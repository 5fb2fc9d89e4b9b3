# Communication translator — a Dafny model of its core

The service translates between product-requirement language and
engineering language. A browser page posts a text and a translation
direction, or asks for automatic detection. The server does three things:

- it validates the request;
- when asked, it has a classifier model decide the direction, and refuses
  when the classifier is unsure;
- it streams the translator model's output back as Server-Sent Events
  ("data: …" frames). The stream ends with "[DONE]" or a fixed
  "[ERROR] …" text.

The page splits the body into frames and dispatches each payload. It keeps
`isTranslating`, the output buffer, a typing indicator and the output area
up to date.

The model is split into these modules:

- `TextOps` holds the string operations the code relies on: Python's
  `split(sep)[0]`/`[1]`, `strip()`/`trim()` over each language's whitespace
  set, and UTF-16 length.
- `Enums`, `Requests` and `LegacyModels` cover the direction enumeration
  and the two request models. `Validate` returns a `Result` with the
  validation issues.
- `Router` covers the classifier's reply parser and `detect_intent`.
- `Translator` covers the stream translator: `StreamOutput` specifies it
  and the method `TranslateStream` is proved against it.
- `Orchestrator` covers the `/api/translate` handler of both
  `src/controllers/translate.py` and `src/main.py`, with `GenerateSse`
  proved against `SseEvents`.
- `SseClient` covers the page's frame splitting (the regular expression
  `/\n\n(?=data: |$)/`), payload extraction and classification. It also
  holds the round trip from the server's framing back to the payloads.
- `ClientPage` covers the page state. Its transitions are functions on a
  `UiState` value, and a `Page` class performs them in place. The end-to-end
  lemmas chain server and page together.

The following inputs are parameters:

- the model calls (`ClassifierCall`, `Upstream`);
- the presence of the API key;
- Python's `json.loads`, `float(str)` and `str(value)`, as the `Runtime`
  value;
- `json.dumps` of the metadata;
- the page's `JSON.parse` of it (`parseMeta`);
- the network reads (`HttpReply`).

Python resolves `src.models` to the `src/models/` package, which shadows
`src/models.py`. The older request model is modelled anyway, and
`LegacyModels.LegacyAcceptedIsAccepted` shows that the newer model accepts
everything the older one did.

Two behaviours of the code as written are stated as lemmas:

- The page counts UTF-16 code units and the server counts characters.
  Text of five characters outside the Basic Multilingual Plane passes the
  page's check and is then refused by the server as too short
  (`ClientPage.AstralInputRefusedByServer`).
- `appendOutput` re-renders the whole area from the buffer. The "[META]"
  line therefore disappears when the first text arrives (`ClientPage.Deliver`
  replaces the area with `Markdown(buffer)`).

## Model

| member | source | states |
|---|---|---|
| Router.MakeIntentResult | src/router.py:24-39 | An `IntentResult` exists exactly when the confidence is within [0, 1], and it keeps the direction, confidence and reasoning it was given |
| Router.ExtractJson | src/router.py:133-138 | The JSON text is taken from the first "```json" fence, else from the first bare fence, each stripped, else the reply as it is (nested `split` calls) |
| Router.ExtractJsonFenced | src/router.py:134-136 | With a "```json" fence, the JSON text is what follows the first "```json" up to the next "```", stripped. This holds unless four backticks follow the fence |
| Router.ExtractJsonBare | src/router.py:137-138 | With only bare fences, the JSON text is what lies between the first and second "```", stripped |
| Router.ExtractJsonUnfenced | src/router.py:134-138 | A reply without any fence is parsed as it is |
| Router.DirectionOf | src/router.py:143-150 | The detected direction is dev_to_product exactly when the field is the string "dev_to_product". Anything else, including a missing field, is product_to_dev |
| Router.Clamp | src/router.py:153-154 | The confidence is clamped into [0, 1]. Values inside are kept, values above become 1.0 and values below become 0.0 |
| Router.FloatOf | src/router.py:153 | `float(value)` raises TypeError exactly for null, a list or an object. It raises an uncaught exception exactly for a string `float` cannot parse (ValueError) or an int of magnitude 2^1024 - 2^970 or more (OverflowError) |
| Router.ParseResponse | src/router.py:123-172 | `_parse_response`: decode, map the direction, clamp the confidence (0.5 when absent), take the reasoning. A decode error or TypeError gives the 0.3 fallback, and other exceptions escape |
| Router.ParseObject | src/router.py:140-163 | A decoded JSON object gives `Ok` with the direction as above (iff), the clamped confidence and the reasoning text ("" when absent) |
| Router.UnknownDirectionDefaults | src/router.py:143-150 | A missing or unknown direction yields product_to_dev and keeps the parsed confidence and reasoning |
| Router.MissingConfidenceIsHalf | src/router.py:153 | An object without "confidence" gets confidence 0.5 |
| Router.UndecodableFallback | src/router.py:165-172 | A reply whose extracted text is not JSON gives exactly (product_to_dev, 0.3, the fixed "无法解析" reasoning) |
| Router.UnconvertibleConfidenceFallback | src/router.py:153-172 | A null, list or object confidence raises TypeError, which is caught, so the result is the same 0.3 fallback |
| Router.DetectIntent | src/router.py:69-121 | `detect_intent`: an API error gives 0.0 with "API 错误…", any other exception 0.0 with "识别失败: …", otherwise the parsed result |
| Router.DetectOutcomes | src/router.py:69-121 | `detect_intent` never fails. An API error gives 0.0 with "API 错误…", any other failure, including an exception escaping the parser, gives 0.0 with "识别失败: …", and the confidence is always within [0, 1] |
| Router.ParseEscapesExactly | src/router.py:133-172 | The parser raises iff the decoded value is not an object, or its confidence is a string `float` cannot parse or an int beyond the double range |
| Router.NonObjectEscapes | src/router.py:140-143 | A decoded value that is not an object gives (product_to_dev, 0.0, "识别失败: '<type>' object has no attribute 'get'"), not the 0.3 fallback |
| Router.NonNumericConfidenceEscapes | src/router.py:153-172 | A confidence string `float` cannot parse gives (product_to_dev, 0.0, "识别失败: " + the ValueError's message) |
| Router.OverflowingConfidenceEscapes | src/router.py:153-172 | An integer confidence beyond the double range gives (product_to_dev, 0.0, "识别失败: int too large to convert to float") |
| Router.UnfencedReply | src/router.py:96-140 | A reply without "```" is stripped and parsed as it is |
| Router.SameExtractionSameVerdict | src/router.py:96-172 | The verdict depends on the reply only through the JSON text extracted from its stripped form |
| Router.JsonFencedLikeUnfenced | src/router.py:96-140 | A JSON text in a "```json" fence is classified exactly as the same text unfenced, whenever it contains no "```" and does not end with a backtick (inline code inside it is allowed) |
| Router.BareFencedLikeUnfenced | src/router.py:96-140 | A JSON text in a bare "```" fence is classified exactly as the same text unfenced, whenever it contains no "```", neither starts nor ends with a backtick, and does not begin with "json" |
| Enums.ParseDirection | src/models/enums.py:11-14 | Exactly the two wire strings construct a direction, and the member's value is that string |
| Enums.WireRoundTrip | src/models/enums.py:11-14 | Each member's value parses back to that member, and the values are distinct |
| Requests.Validate | src/models/requests.py:14-36 | An accepted request satisfies every field constraint and the validator. A refusal carries at least one issue |
| Requests.ValidateAcceptsExactly | src/models/requests.py:14-36 | A body is accepted iff its content is present with 10 to 2000 characters, any direction is a wire value, and it sets auto_detect or gives a direction. The request keeps the body's values |
| Requests.ContentOnlyRefused | src/models/requests.py:26-36 | Content alone, with both defaults, is refused by the validator |
| Requests.AutoDetectWithoutDirection | src/models/requests.py:22-36 | auto_detect=true with an omitted or null direction is accepted, with no direction |
| Requests.AutoDetectWithDirection | src/models/requests.py:22-36 | auto_detect=true together with a direction is accepted and keeps the direction |
| Requests.UnknownDirectionRefused | src/models/requests.py:22-25 | A direction string other than the two values is refused with that issue, whatever the other fields are |
| LegacyModels.ValidateLegacy | src/models.py:18-29 | An accepted legacy request has in-bounds content. A refusal carries at least one issue |
| LegacyModels.LegacyAcceptsExactly | src/models.py:18-29 | The legacy model accepts iff the content is in bounds and the direction is present and one of the two values |
| LegacyModels.LegacyAcceptedIsAccepted | src/models.py:12-29 | Every body the legacy model accepts is accepted by the newer model with the same content and direction |
| Translator.FailureText | src/services/translator.py:88-111 | No failure message contains a newline |
| Translator.ErrorMarkersAreErrors | src/services/translator.py:88-111 | Every error text starts with "[ERROR]" and is not "[DONE]". The message after "[ERROR] " is non-empty and has no surrounding whitespace |
| Translator.MarkerDistinctions | src/services/translator.py:88-111 | The library's timeout error is reported as a connection problem, distinct from the call deadline. Two failures share a text iff they are equal or are connection and library timeout |
| Translator.SystemPrompt | src/services/translator.py:61 | A prompt exists exactly for the two wire strings |
| Translator.TextOf | src/services/translator.py:79-82 | A chunk yields text only when its first choice has non-empty content |
| Translator.Fragments | src/services/translator.py:78-82 | No more fragments than chunks, none of them empty |
| Translator.FragmentsAppend | src/services/translator.py:78-82 | The fragments of concatenated chunk sequences are the concatenated fragments |
| Translator.FragmentsOfOne | src/services/translator.py:79-82 | A single chunk is forwarded exactly when it has non-empty content, and then as that content |
| Translator.TranslateStream | src/services/translator.py:43-111 | The method yields exactly `StreamOutput`, and it makes the model call iff the prompt lookup succeeds |
| Translator.StreamOutput | src/services/translator.py:43-111 | `translate_stream`'s items: an unknown key or a failed call gives one error text, otherwise the non-empty fragments followed by "[DONE]" or, when the stream breaks off, by the failure's text |
| Translator.OutputShape | src/services/translator.py:43-111 | The output ends with exactly one terminal marker, and everything before it is the non-empty fragments. The marker is "[DONE]" iff the stream was opened and exhausted |
| Translator.CompletedStream | src/services/translator.py:78-86 | An exhausted stream yields its fragments and then "[DONE]" |
| Translator.InterruptionKeepsYielded | src/services/translator.py:78-111 | A broken-off stream keeps everything already yielded and replaces "[DONE]" by the failure's text |
| Translator.FragmentsOfPrefix | src/services/translator.py:78-82 | Later chunks never change earlier output: the fragments of a prefix of the stream are a prefix of its fragments |
| Translator.UnknownPromptKey | src/services/translator.py:59-111 | An unknown direction key yields exactly one item, the generic "unexpected error" text |
| Orchestrator.FrameAll | src/controllers/translate.py:97-98 | Each item becomes its own "data: …\n\n" event, in order |
| Orchestrator.FrameAllAppend | src/controllers/translate.py:97-98 | Framing distributes over concatenation |
| Orchestrator.PreambleFramed | src/controllers/translate.py:88-94 | The META event and the advisory pair are the framing of their payloads |
| Orchestrator.FrameAllStep | src/controllers/translate.py:97-98 | Framing one more item appends exactly its event |
| Orchestrator.SendPreamble | src/controllers/translate.py:88-94 | The generator's first events are exactly the preamble: nothing without metadata, else the META event and, below 0.8, the advisory pair |
| Orchestrator.SseEvents | src/controllers/translate.py:85-98 | The events of the streaming reply: the preamble, then every translator item framed |
| Orchestrator.GenerateSse | src/controllers/translate.py:85-98 | The generator emits the preamble and then every translator item framed, in order |
| Orchestrator.Translate | src/controllers/translate.py:28-107 | The handler: 500 without a key, classification only with auto_detect and no direction, 400 below 0.5, otherwise a stream with the preamble of the detected result and the translator's items |
| Orchestrator.MissingKeyRejects | src/controllers/translate.py:40-48 | Without an API key the reply is 500 AI_SERVICE_ERROR, no classification happens and nothing is translated |
| Orchestrator.ClassifierOnlyOnAutoPath | src/controllers/translate.py:55-83 | The classifier runs iff the key is present, auto_detect is set and no direction is given. An explicit direction is always the one translated with, and no preamble is sent |
| Orchestrator.LowConfidenceRejects | src/controllers/translate.py:61-70 | On the detection path, confidence below 0.5 gives 400 LOW_CONFIDENCE with the confidence and no translation (iff). At 0.5 and above the detected direction is used |
| Orchestrator.AcceptedAutoPathEvents | src/controllers/translate.py:72-98 | The stream opens with the META event of the detected direction, confidence and reasoning. The advisory pair follows iff confidence is below 0.8, then the translator's items |
| Orchestrator.StreamEndsWithTerminal | src/controllers/translate.py:85-98 | Every streamed reply ends with the translator's items verbatim. Its last event is a terminal marker, "[DONE]" iff the upstream completed |
| Orchestrator.VariantsDifferOnlyInAdvisory | src/main.py:91-162 | The older handler in main.py behaves identically to the controller except for the advisory event's text |
| SseClient.SplitMessages | static/app.js:248 | The regular-expression split yields at least one piece, and joining the pieces with their separators restores the chunk |
| SseClient.SplitFrom | static/app.js:248 | Splitting never yields zero pieces, and joining the pieces back with their separators restores the text |
| SseClient.Payloads | static/app.js:250-255 | The payloads are the messages that start with "data: ", without the prefix, in order: never more than the messages |
| SseClient.PayloadsAppend | static/app.js:248-255 | Payload extraction distributes over concatenated message lists |
| SseClient.FramesParseBack | static/app.js:245-256 | Round trip with the server's framing: a body of framed items is read back as exactly those items, provided none contains "\n\ndata: " |
| SseClient.BreakInsideItemSplits | static/app.js:248 | An item containing "\n\ndata: " between newline-free texts is read back as two payloads |
| SseClient.SliceFrom | static/app.js:272-282 | JavaScript `slice(n)` is the suffix from n, or empty past the end |
| SseClient.Classify | static/app.js:261-294 | An error message is never empty (the default text replaces an empty one), and text payloads are kept verbatim |
| SseClient.ErrorMessage | static/app.js:272 | `data.slice(8).trim()`, or the default text when that is empty: never empty |
| SseClient.ClassifyPrecedence | static/app.js:261-294 | "[DONE]" exactly finishes. Otherwise an "[ERROR]" prefix is an error, otherwise a "[META]" prefix is metadata, otherwise the payload is text, each iff |
| SseClient.ClassifyText | static/app.js:261-294 | A payload not starting with "[" is text |
| SseClient.DoneRead | static/app.js:263-268 | The server's completion marker finishes the translation |
| SseClient.ErrorMarkerRead | static/app.js:271-278 | Each of the server's error texts is read as an error whose message is the failure's message, unchanged by the trim |
| SseClient.MetaRead | static/app.js:281-290 | The server's "[META] " event carries its JSON, trimmed |
| ClientPage.InputProblem | static/app.js:134-153 | No message iff the trimmed input is non-empty with 10 to 2000 UTF-16 units. Otherwise the message is one of the three |
| ClientPage.CharCountThreshold | static/app.js:86-96 | The counter warns iff the untrimmed input is over 1800 UTF-16 units |
| ClientPage.SelectedDirection | static/app.js:119-129 | No direction iff the selector is on "auto", otherwise the selector's value |
| ClientPage.RequestBody | static/app.js:189-205 | The body the page posts: the content, auto_detect from the selector, and a direction only outside auto mode |
| ClientPage.RequestBodyShape | static/app.js:196-205 | The body carries the content and auto_detect equal to the mode. It carries a direction iff not in auto mode with a non-empty selection |
| ClientPage.PageRequestsAccepted | static/app.js:134-205 | For each of the three selector options, accepted input without astral characters forms a body the server accepts, with the intended content, flag and direction |
| ClientPage.BodyAccepted | static/app.js:196-205 | A body built from in-bounds content with any of the three selector options is accepted by the server with that content, the auto flag iff "auto", and the selected direction |
| ClientPage.AstralInputRefusedByServer | static/app.js:134-153 | Five astral characters pass the page's check but are refused by the server as too short |
| ClientPage.Deliver | static/app.js:261-294 | The page state after one payload: "[DONE]" finishes, "[ERROR]" shows the message and finishes, "[META]" adds the line when the JSON parses, text is appended and rendered |
| ClientPage.DeliverTransitions | static/app.js:261-294 | Completion and errors end the translation and stop the typing indicator. Metadata and text keep `isTranslating`. Only text changes the buffer, appending exactly the payload |
| ClientPage.BufferAccumulates | static/app.js:292-343 | The buffer grows by exactly the concatenated text payloads, in order |
| ClientPage.DeliverAllAppend | static/app.js:245-256 | Delivering two payload lists in turn equals delivering their concatenation |
| ClientPage.Outcome | static/app.js:207-240 | The state after the request: a refused or unreachable request shows the generic failure, an accepted one clears the area, starts typing and delivers every read |
| ClientPage.Submit | static/app.js:158-187 | `handleTranslate`: an input problem shows its message, a click during a translation is ignored, otherwise the state is reset, the body sent and the reply processed |
| ClientPage.SubmitGuards | static/app.js:158-167 | Invalid input shows its message and sends nothing. A click during a translation changes nothing and sends nothing. A body is sent iff neither holds |
| ClientPage.SubmitSends | static/app.js:158-240 | An accepted click sends the trimmed input's body from an empty buffer. A refused or unreachable request ends with the generic failure message, and a complete stream is processed in full |
| ClientPage.TextOfPlain | static/app.js:293 | When every payload is text, the accumulated text is their concatenation |
| ClientPage.PlainKeepsTranslating | static/app.js:292-343 | Text payloads leave `isTranslating` and the typing indicator alone and render the buffer |
| ClientPage.ErrorMarkerNoBreak | static/app.js:248 | No server error text contains a frame break |
| ClientPage.TerminalRead | static/app.js:263-278 | A terminal marker survives framing. "[DONE]" finishes, and an error text shows its message |
| ClientPage.PlainThenTerminal | static/app.js:261-294 | Text payloads followed by a terminal marker end the translation with the texts in the buffer and the right area |
| ClientPage.FramedStreamReceived | static/app.js:245-294 | A framed body of plain fragments and a terminal marker, read at once, ends the translation with the fragments in the buffer |
| ClientPage.StreamReceived | static/app.js:245-294 | The framed translator output, read at once, ends the translation with the forwarded fragments in the buffer. After "[DONE]" the area shows the buffer (or is unchanged if nothing arrived), after an error the message |
| ClientPage.StreamDelivered | static/app.js:261-294 | The same for the translator's items delivered one by one |
| ClientPage.MessageStep | static/app.js:250-255 | Handling the messages one more step delivers that message's payload after the earlier ones |
| ClientPage.ExplicitDirectionEndToEnd | src/controllers/translate.py:80-98 | End to end with an explicit direction: the page ends idle with the buffer equal to the forwarded fragments. It shows the buffer after "[DONE]", or the server's error message |
| ClientPage.AdvisoryNoBreak | src/controllers/translate.py:92-94 | Neither advisory text contains a frame break |
| ClientPage.AdvisoryIsText | static/app.js:293 | The advisory line is read as text |
| ClientPage.PreambleDelivered | static/app.js:281-293 | The META payload leaves the buffer alone. Below 0.8 the advisory line (and an empty line) are appended as text |
| ClientPage.PreambleBreakFree | src/controllers/translate.py:88-94 | The preamble's payloads contain no frame break when the metadata JSON has none |
| ClientPage.AutoDetectEndToEnd | src/controllers/translate.py:55-98 | End to end on the detection path: the page ends idle with the buffer holding the advisory line (below 0.8) followed by the forwarded fragments. A failed stream leaves the server's message |
| ClientPage.Page.constructor | static/app.js:24-26 | The page starts idle with an empty buffer |
| ClientPage.Page.SetTranslatingState | static/app.js:365-381 | Only `isTranslating` changes |
| ClientPage.Page.ClearOutput | static/app.js:348-352 | Buffer and area are emptied and typing stops. Nothing else changes |
| ClientPage.Page.ShowError | static/app.js:357-360 | The message replaces the area and typing stops |
| ClientPage.Page.AppendOutput | static/app.js:328-343 | The text is appended to the buffer and the buffer replaces the area |
| ClientPage.Page.DisplayIntentMeta | static/app.js:299-323 | The metadata line is added after the area's content |
| ClientPage.Page.FinishStream | static/app.js:263-268 | "[DONE]": no longer translating, typing stops, nothing else changes |
| ClientPage.Page.FailStream | static/app.js:271-278 | "[ERROR]": the message replaces the area, the translation ends and typing stops |
| ClientPage.Page.HandleSseData | static/app.js:261-294 | The new state is exactly `Deliver` of the old state and the payload |
| ClientPage.Page.HandleDone | static/app.js:263-268 | For "[DONE]" the new state is `Deliver` of the old one: finished, typing stopped |
| ClientPage.Page.HandleErrorEvent | static/app.js:271-278 | For an "[ERROR]" payload the new state is `Deliver` of the old one: the message shown and the translation ended |
| ClientPage.Page.HandleMetaEvent | static/app.js:281-290 | For a "[META]" payload the new state is `Deliver` of the old one: the line added when the JSON parses, otherwise nothing changes |
| ClientPage.Page.HandleText | static/app.js:292-293 | For a text payload the new state is `Deliver` of the old one: the text appended and rendered |
| ClientPage.Page.HandleMessage | static/app.js:251-254 | A message is delivered iff it starts with "data: ", as its payload after the prefix |
| ClientPage.Page.ProcessSseChunk | static/app.js:245-256 | The new state is the old state with every "data: " message of the received text delivered in order |
| ClientPage.Page.ReadStream | static/app.js:230-239 | Each network read is processed in turn: the new state is `ReceiveAll` of the old one and the reads |
| ClientPage.Page.ReadReply | static/app.js:216-239 | A refused or unreachable request shows the generic failure. An accepted one clears the area, starts typing and reads the whole stream, and a stream that breaks off then shows the failure too |
| ClientPage.Page.HandleTranslate | static/app.js:158-240 | The new state and the body sent are exactly `Submit` of the old state, the input, the selector and the reply |

## Left out

- Router.ExtractJsonFenced: the case where four or more backticks follow the "```json" fence is not characterised. The nested split then cuts at a different fence, and `ExtractJson` still computes it.
- Router.JsonFencedLikeUnfenced: a body that contains "```" or ends with a backtick is not characterised. The closing fence is then not the first "```" after the opening one, and `ExtractJson` still computes the result.
- Router.BareFencedLikeUnfenced: in addition, a body that starts with a backtick is not characterised. A body such as "`json x" turns the opening fence into part of a "```json" fence.
- JSON numbers are modelled as exact reals. The rounding done by `float` and by `json.loads` is not modelled, and neither are the NaN, Infinity and -Infinity values that `json.loads` accepts (and produces for float literals beyond the double range). In the source, NaN and +Infinity clamp to 1.0 and -Infinity to 0.0. `float(text)` is a parameter that returns a real, so "nan" and "inf" strings are not represented either.
- The prompt texts and the model parameters (model name, temperature, `max_tokens`). Only which prompt is chosen is modelled.
- The `asyncio.wait_for` deadline is modelled only as one more failure kind. The timing itself is not modelled.
- Logging, the chunk counter and `console.error` calls have no effect on results.
- The wording of the `detail` strings of error responses and the `:.0%` formatting of the confidence are abstracted as `Detail` values.
- `auto_detect` values that pydantic coerces from non-booleans, and non-string content, are not modelled. Content is present or absent, and the flag is a boolean or absent.
- Frames split across two network reads are not modelled. Each read is split on its own, as the page does, and the end-to-end lemmas assume the body arrives in one read.
- Fragments equal to "[DONE]" or starting with "[ERROR]" or "[META]" are misread by the page. The end-to-end lemmas assume plain fragments (`ClientPage.Plain`), and `SseClient.BreakInsideItemSplits` shows the frame-break case.
- The `eventSource` close at the start of `sendTranslateRequest` is dead code (the variable is never assigned) and is left out.
- Markdown rendering, the placeholder element, the theme toggle, copying and the disabled state of the controls are left out. The controls' state always equals `isTranslating`, and the rendered output is abstracted as `Markdown(buffer)`.
- JavaScript `slice` and `trim` are modelled on characters. Only the length checks count UTF-16 units.
- ClientPage.PreambleDelivered: the area after the META payload depends on `parseMeta` and is not stated.
- ClientPage.AutoDetectEndToEnd: the area after "[DONE]" is not stated, because it depends on whether the metadata parsed and whether text arrived.
- The health endpoint, the application factory, configuration loading and the HTTP client construction are not part of this model.
