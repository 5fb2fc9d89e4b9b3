/**
 * The page logic of static/app.js: input validation and the character
 * counter, the request body built from the direction selector, and the
 * page state that the submit handler and the event-stream reader update —
 * `isTranslating`, `outputBuffer`, the "typing" indicator and what the
 * output area shows.
 *
 * The state transitions are stated once as functions on `UiState` and the
 * `Page` class's methods, which update the fields in place, are proved to
 * perform exactly those transitions.
 */
module ClientPage {
  import opened TextOps
  import opened Enums
  import opened Requests
  import opened Router
  import opened Translator
  import opened Orchestrator
  import opened SseClient

  const MinLength: nat := 10
  const MaxLength: nat := 2000

  const EmptyInput: string := "请输入需要翻译的内容"
  const InputTooShort: string := "输入内容过短，请提供更多上下文（至少 10 个字符）"
  const InputTooLong: string := "输入内容过长，请控制在 2000 个字符以内"
  const RequestFailed: string := "翻译请求失败，请稍后重试"

  // ---------------------------------------------------------------------
  // Input and request body

  /** The trimmed input the page accepts: non-empty, 10 to 2000 UTF-16 units. */
  predicate Acceptable(content: string) {
    content != [] && MinLength <= Utf16Length(content) <= MaxLength
  }

  /**
   * `validateInput`: the message shown for the first failed check on the
   * trimmed input, or none when it passes.
   */
  function InputProblem(raw: string): (r: Option<string>)
    ensures r.None? <==> Acceptable(Trim(JsSpace, raw))
    ensures r.Some? ==> r.value in {EmptyInput, InputTooShort, InputTooLong}
  {
    var content := Trim(JsSpace, raw);
    if content == [] then Some(EmptyInput)
    else if Utf16Length(content) < MinLength then Some(InputTooShort)
    else if Utf16Length(content) > MaxLength then Some(InputTooLong)
    else None
  }

  /** `updateCharCount`: the counter warns above nine tenths of the maximum. */
  predicate CharCountWarns(value: string) {
    Utf16Length(value) as real > MaxLength as real * 0.9
  }

  /** The counter's threshold is 1800 units of the untrimmed input. */
  lemma CharCountThreshold(value: string)
    ensures CharCountWarns(value) <==> Utf16Length(value) > 1800
  {
  }

  /** `isAutoDetectMode`: the selector is on "auto". */
  predicate AutoDetectMode(select: string) {
    select == "auto"
  }

  /** `getSelectedDirection`: the selector's value, or none in automatic mode. */
  function SelectedDirection(select: string): (r: Option<string>)
    ensures r.None? <==> AutoDetectMode(select)
    ensures r.Some? ==> r.value == select
  {
    if select == "auto" then None else Some(select)
  }

  /**
   * The body `sendTranslateRequest` posts: the content, `auto_detect`, and
   * `direction` only outside automatic mode and only when the selected
   * value is non-empty (a truthy string).
   */
  function RequestBody(select: string, content: string): Body {
    var auto := AutoDetectMode(select);
    var direction := SelectedDirection(select);
    Body(Some(content),
         if !auto && direction.Some? && direction.value != "" then Given(direction.value) else Omitted,
         Some(auto))
  }

  /**
   * The body always carries `auto_detect` equal to the automatic mode and
   * carries a direction exactly when not in automatic mode with a non-empty
   * selection.
   */
  lemma RequestBodyShape(select: string, content: string)
    ensures var b := RequestBody(select, content);
            && b.content == Some(content)
            && b.autoDetect == Some(select == "auto")
            && (b.direction.Given? <==> select != "auto" && select != "")
            && (b.direction.Given? ==> b.direction.text == select)
            && (b.direction.Omitted? <==> select == "auto" || select == "")
  {
  }

  /**
   * The server accepts what the page sends for any of the selector's three
   * options, provided the accepted input has no character outside the
   * Basic Multilingual Plane: automatic mode gives an auto-detecting
   * request without direction, a direction option gives that direction.
   */
  lemma PageRequestsAccepted(select: string, raw: string)
    requires select in {"auto", "product_to_dev", "dev_to_product"}
    requires InputProblem(raw).None?
    requires forall i :: 0 <= i < |Trim(JsSpace, raw)| ==> Trim(JsSpace, raw)[i] as int <= 0xFFFF
    ensures var content := Trim(JsSpace, raw);
            var r := Validate(RequestBody(select, content));
            && r.Ok?
            && r.value.content == content
            && r.value.autoDetect == (select == "auto")
            && r.value.direction == ParseDirection(select)
  {
    var content := Trim(JsSpace, raw);
    Utf16LengthOfBmp(content);
    assert ContentInBounds(content);
    BodyAccepted(select, content);
  }

  lemma BodyAccepted(select: string, content: string)
    requires select in {"auto", "product_to_dev", "dev_to_product"}
    requires ContentInBounds(content)
    ensures var r := Validate(RequestBody(select, content));
            && r.Ok?
            && r.value.content == content
            && r.value.autoDetect == (select == "auto")
            && r.value.direction == ParseDirection(select)
  {
    var b := RequestBody(select, content);
    RequestBodyShape(select, content);
    ValidateAcceptsExactly(b);
    if select == "auto" {
      assert b.direction == Omitted;
    } else {
      assert b.direction == Given(select);
    }
  }

  /**
   * The page counts UTF-16 units and the server counts characters, so five
   * characters outside the Basic Multilingual Plane pass the page's check
   * and are refused by the server as too short.
   */
  lemma AstralInputRefusedByServer(raw: string, select: string)
    requires |raw| == 5 && forall i :: 0 <= i < |raw| ==> raw[i] as int > 0xFFFF
    ensures InputProblem(raw).None?
    ensures Validate(RequestBody(select, Trim(JsSpace, raw))) == Err([ContentTooShort] + DirectionIssues(RequestBody(select, raw).direction))
  {
    assert !IsSpace(JsSpace, raw[0]) && !IsSpace(JsSpace, raw[4]);
    TrimKeepsTrimmed(JsSpace, raw);
    Utf16LengthOfAstral(raw);
  }

  // ---------------------------------------------------------------------
  // Page state

  /** What the output area shows. */
  datatype Block =
    | MetaBlock(caption: string, high: bool) // the intent metadata line
    | Markdown(source: string)              // the rendered output buffer
    | ErrorText(message: string)            // an error message

  /** The fields of the metadata the page reads once `JSON.parse` succeeded. */
  datatype MetaView = MetaView(detectedDirection: string, confidence: real)

  /** The page state: `isTranslating`, `outputBuffer`, the typing indicator, the output area. */
  datatype UiState = UiState(translating: bool, buffer: string, typing: bool, area: seq<Block>)

  /** The label `displayIntentMeta` shows for a detected direction. */
  function MetaLabel(detected: string): string {
    if detected == "product_to_dev" then "产品需求 → 技术语言" else "技术方案 → 业务语言"
  }

  /**
   * `handleSSEData` on one payload.  `parseMeta` is `JSON.parse` followed by
   * reading the two fields; none means it threw, which is only logged.
   */
  function Deliver(s: UiState, data: string, parseMeta: string -> Option<MetaView>): UiState {
    match Classify(data)
    case Finished => s.(translating := false, typing := false)
    case Failed(m) => s.(area := [ErrorText(m)], typing := false, translating := false)
    case MetaData(json) =>
      (match parseMeta(json)
       case None => s
       case Some(v) => s.(area := s.area + [MetaBlock(MetaLabel(v.detectedDirection), v.confidence >= 0.8)]))
    case TextData(t) => s.(buffer := s.buffer + t, area := [Markdown(s.buffer + t)])
  }

  /** "[DONE]" ends the translation and stops the typing indicator. */
  lemma DeliverDone(s: UiState, parseMeta: string -> Option<MetaView>)
    ensures Deliver(s, "[DONE]", parseMeta) == s.(translating := false, typing := false)
  {
    DoneRead();
  }

  /** An error payload shows its message in place of the area and ends the translation. */
  lemma DeliverError(s: UiState, data: string, parseMeta: string -> Option<MetaView>)
    requires data != "[DONE]" && IsPrefix("[ERROR]", data)
    ensures Deliver(s, data, parseMeta) == s.(area := [ErrorText(ErrorMessage(data))], typing := false, translating := false)
  {
    ClassifyError(data);
  }

  /** A metadata payload whose JSON parses adds the metadata line after the area. */
  lemma DeliverMetaShown(s: UiState, data: string, parseMeta: string -> Option<MetaView>, json: string, v: MetaView)
    requires Classify(data) == MetaData(json) && parseMeta(json) == Some(v)
    ensures Deliver(s, data, parseMeta) == s.(area := s.area + [MetaBlock(MetaLabel(v.detectedDirection), v.confidence >= 0.8)])
  {
  }

  /** A metadata payload whose JSON does not parse changes nothing. */
  lemma DeliverMetaIgnored(s: UiState, data: string, parseMeta: string -> Option<MetaView>, json: string)
    requires Classify(data) == MetaData(json) && parseMeta(json).None?
    ensures Deliver(s, data, parseMeta) == s
  {
  }

  /** A text payload is appended to the buffer, which replaces the area. */
  lemma DeliverText(s: UiState, data: string, parseMeta: string -> Option<MetaView>)
    requires data != "[DONE]" && !IsPrefix("[ERROR]", data) && !IsPrefix("[META]", data)
    ensures Deliver(s, data, parseMeta) == s.(buffer := s.buffer + data, area := [Markdown(s.buffer + data)])
  {
    ClassifyPlain(data);
  }

  /** The payloads delivered in order. */
  function DeliverAll(s: UiState, payloads: seq<string>, parseMeta: string -> Option<MetaView>): UiState {
    if payloads == [] then s
    else Deliver(DeliverAll(s, payloads[..|payloads| - 1], parseMeta), payloads[|payloads| - 1], parseMeta)
  }

  /** `processSSEChunk`: the payloads of one received text, delivered in order. */
  function Receive(s: UiState, chunk: string, parseMeta: string -> Option<MetaView>): UiState {
    DeliverAll(s, Payloads(SplitMessages(chunk)), parseMeta)
  }

  /** Every received text processed in order, as `sendTranslateRequest` reads them. */
  function ReceiveAll(s: UiState, received: seq<string>, parseMeta: string -> Option<MetaView>): UiState {
    if received == [] then s
    else Receive(ReceiveAll(s, received[..|received| - 1], parseMeta), received[|received| - 1], parseMeta)
  }

  /**
   * How the POST went: refused with a non-2xx status, not reachable, or a
   * streamed body read in pieces that either ended or broke off.
   */
  datatype HttpReply = Rejected(status: nat) | Unreachable | Streamed(received: seq<string>, brokeOff: bool)

  /** The state after the request, from the state right after the submit handler's reset. */
  function Outcome(s: UiState, reply: HttpReply, parseMeta: string -> Option<MetaView>): UiState {
    var failed := s.(area := [ErrorText(RequestFailed)], typing := false, translating := false);
    match reply
    case Rejected(_) => failed
    case Unreachable => failed
    case Streamed(received, brokeOff) =>
      var done := ReceiveAll(s.(typing := true, area := []), received, parseMeta);
      if brokeOff then done.(area := [ErrorText(RequestFailed)], typing := false, translating := false) else done
  }

  /**
   * `handleTranslate`: the new state and the body sent, if any.  Invalid
   * input shows its message; a translation in progress ignores the click;
   * otherwise the state is reset, the body posted and the reply processed.
   */
  function Submit(s: UiState, raw: string, select: string, reply: HttpReply,
                  parseMeta: string -> Option<MetaView>): (UiState, Option<Body>)
  {
    match InputProblem(raw)
    case Some(m) => (s.(area := [ErrorText(m)], typing := false), None)
    case None =>
      if s.translating then (s, None)
      else
        var reset := s.(translating := true, buffer := "", area := [], typing := false);
        (Outcome(reset, reply, parseMeta), Some(RequestBody(select, Trim(JsSpace, raw))))
  }

  // ---------------------------------------------------------------------
  // Properties of the transitions

  /**
   * Completion and errors end the translation and stop the typing
   * indicator; metadata and text leave `isTranslating` as it was.  Only
   * text changes the buffer, by appending exactly the payload.
   */
  lemma DeliverTransitions(s: UiState, data: string, parseMeta: string -> Option<MetaView>)
    ensures var t := Deliver(s, data, parseMeta);
            && (data == "[DONE]" || IsPrefix("[ERROR]", data) ==> !t.translating && !t.typing)
            && (data != "[DONE]" && !IsPrefix("[ERROR]", data) ==> t.translating == s.translating)
            && (Classify(data).TextData? ==> t.buffer == s.buffer + data && t.area == [Markdown(t.buffer)])
            && (!Classify(data).TextData? ==> t.buffer == s.buffer)
  {
    ClassifyPrecedence(data);
  }

  /** The text of the payloads that are read as translated text, concatenated. */
  function TextOfAll(payloads: seq<string>): string {
    if payloads == [] then ""
    else
      var last := payloads[|payloads| - 1];
      TextOfAll(payloads[..|payloads| - 1]) + (if Classify(last).TextData? then last else "")
  }

  /** `outputBuffer` grows by exactly the delivered text, in order. */
  lemma {:induction false} BufferAccumulates(s: UiState, payloads: seq<string>, parseMeta: string -> Option<MetaView>)
    ensures DeliverAll(s, payloads, parseMeta).buffer == s.buffer + TextOfAll(payloads)
  {
    if payloads != [] {
      var init := payloads[..|payloads| - 1];
      BufferAccumulates(s, init, parseMeta);
      DeliverTransitions(DeliverAll(s, init, parseMeta), payloads[|payloads| - 1], parseMeta);
    }
  }

  lemma {:induction false} DeliverAllAppend(s: UiState, a: seq<string>, b: seq<string>, parseMeta: string -> Option<MetaView>)
    ensures DeliverAll(s, a + b, parseMeta) == DeliverAll(DeliverAll(s, a, parseMeta), b, parseMeta)
    decreases |b|
  {
    if b == [] {
      assert a + b == a;
    } else {
      assert (a + b)[..|a + b| - 1] == a + b[..|b| - 1];
      DeliverAllAppend(s, a, b[..|b| - 1], parseMeta);
    }
  }

  /**
   * A click with invalid input shows the validation message and sends
   * nothing; a click while a translation runs changes nothing and sends
   * nothing.
   */
  lemma SubmitGuards(s: UiState, raw: string, select: string, reply: HttpReply, parseMeta: string -> Option<MetaView>)
    ensures var (t, sent) := Submit(s, raw, select, reply, parseMeta);
            && (InputProblem(raw).Some? ==>
                  sent.None? && t == s.(area := [ErrorText(InputProblem(raw).value)], typing := false))
            && (InputProblem(raw).None? && s.translating ==> sent.None? && t == s)
            && (sent.Some? <==> InputProblem(raw).None? && !s.translating)
  {
  }

  /**
   * An accepted click sends the trimmed input with the selector's body,
   * starts from an empty buffer, and a refused or unreachable request ends
   * the translation with the generic failure message.
   */
  lemma SubmitSends(s: UiState, raw: string, select: string, reply: HttpReply, parseMeta: string -> Option<MetaView>)
    requires InputProblem(raw).None? && !s.translating
    ensures var (t, sent) := Submit(s, raw, select, reply, parseMeta);
            && sent == Some(RequestBody(select, Trim(JsSpace, raw)))
            && (!reply.Streamed? ==> t == UiState(false, "", false, [ErrorText(RequestFailed)]))
            && (reply.Streamed? && !reply.brokeOff ==>
                  t == ReceiveAll(UiState(true, "", true, []), reply.received, parseMeta))
  {
  }

  // ---------------------------------------------------------------------
  // End to end with the server

  /** A translated fragment the page received back as text. */
  predicate Plain(f: string) {
    !Contains(f, FrameBreak) && Classify(f) == TextData(f)
  }

  /** The fragments a stream forwards, none when the call failed before streaming. */
  function Forwarded(up: Upstream): seq<string> {
    if up.Opened? then Fragments(up.chunks) else []
  }

  lemma {:induction false} TextOfPlain(items: seq<string>)
    requires forall i :: 0 <= i < |items| ==> Classify(items[i]) == TextData(items[i])
    ensures TextOfAll(items) == Concat(items)
  {
    if items != [] {
      var init := items[..|items| - 1];
      TextOfPlain(init);
      ConcatSnoc(init, items[|items| - 1]);
      assert init + [items[|items| - 1]] == items;
    }
  }

  lemma {:induction false} ConcatSnoc(a: seq<string>, x: string)
    ensures Concat(a + [x]) == Concat(a) + x
  {
    if a != [] {
      assert (a + [x])[1..] == a[1..] + [x];
      ConcatSnoc(a[1..], x);
    } else {
      assert a + [x] == [x];
      assert [x][1..] == [];
    }
  }

  /** Text payloads keep the translation running and render the buffer. */
  lemma {:induction false} PlainKeepsTranslating(s: UiState, items: seq<string>, parseMeta: string -> Option<MetaView>)
    requires forall i :: 0 <= i < |items| ==> Classify(items[i]) == TextData(items[i])
    ensures var t := DeliverAll(s, items, parseMeta);
            && t.translating == s.translating && t.typing == s.typing
            && t.area == (if items == [] then s.area else [Markdown(t.buffer)])
  {
    if items != [] {
      PlainKeepsTranslating(s, items[..|items| - 1], parseMeta);
    }
  }

  /** No error text contains a frame break. */
  lemma ErrorMarkerNoBreak(f: Failure)
    ensures !Contains(ErrorMarker(f), FrameBreak)
  {
    NoNewlineNoBreak(FailureText(f));
    NoBreakPrefixed("[ERROR] ", FailureText(f));
  }

  /** A terminal marker contains no frame break; an error marker is read as its message. */
  lemma TerminalRead(marker: string)
    requires IsTerminal(marker)
    ensures !Contains(marker, FrameBreak)
    ensures marker == Done ==> Classify(marker) == Finished
    ensures marker != Done ==> |marker| > 8 && Classify(marker) == Failed(marker[8..])
  {
    if marker == Done {
      NoNewlineNoBreak(Done);
      DoneRead();
    } else {
      var f :| marker == ErrorMarker(f);
      ErrorMarkerRead(f);
      assert marker[8..] == FailureText(f);
      ErrorMarkerNoBreak(f);
    }
  }

  /** Plain fragments then a terminal marker: the translation ends with the fragments in the buffer. */
  lemma PlainThenTerminal(s: UiState, frags: seq<string>, marker: string, parseMeta: string -> Option<MetaView>)
    requires forall i :: 0 <= i < |frags| ==> Classify(frags[i]) == TextData(frags[i])
    requires IsTerminal(marker)
    ensures var t := DeliverAll(s, frags + [marker], parseMeta);
            && !t.translating && !t.typing
            && t.buffer == s.buffer + Concat(frags)
            && (marker == Done ==> t.area == (if frags == [] then s.area else [Markdown(t.buffer)]))
            && (marker != Done ==> |marker| > 8 && t.area == [ErrorText(marker[8..])])
  {
    var items := frags + [marker];
    assert items[..|items| - 1] == frags;
    var mid := DeliverAll(s, frags, parseMeta);
    assert DeliverAll(s, items, parseMeta) == Deliver(mid, marker, parseMeta);
    BufferAccumulates(s, frags, parseMeta);
    TextOfPlain(frags);
    PlainKeepsTranslating(s, frags, parseMeta);
    TerminalRead(marker);
  }

  /**
   * A body of framed plain fragments and a terminal marker, received in one
   * read, ends the translation with the fragments in the buffer.
   */
  lemma FramedStreamReceived(s: UiState, frags: seq<string>, marker: string, parseMeta: string -> Option<MetaView>)
    requires forall i :: 0 <= i < |frags| ==> Plain(frags[i])
    requires IsTerminal(marker)
    ensures var t := Receive(s, Concat(FrameAll(frags + [marker])), parseMeta);
            && !t.translating && !t.typing
            && t.buffer == s.buffer + Concat(frags)
            && (marker == Done ==> t.area == (if frags == [] then s.area else [Markdown(t.buffer)]))
            && (marker != Done ==> |marker| > 8 && t.area == [ErrorText(marker[8..])])
  {
    var items := frags + [marker];
    ItemsBreakFree(frags, marker);
    FramesParseBack(items);
    assert Receive(s, Concat(FrameAll(items)), parseMeta) == DeliverAll(s, items, parseMeta);
    PlainThenTerminal(s, frags, marker, parseMeta);
  }

  lemma ItemsBreakFree(frags: seq<string>, marker: string)
    requires forall i :: 0 <= i < |frags| ==> !Contains(frags[i], FrameBreak)
    requires IsTerminal(marker)
    ensures forall i :: 0 <= i < |frags + [marker]| ==> !Contains((frags + [marker])[i], FrameBreak)
  {
    TerminalRead(marker);
  }

  /**
   * A translation with an explicit direction, its whole response body
   * received in one read: when the stream's fragments are plain text the
   * page ends with `outputBuffer` equal to their concatenation, no longer
   * translating and without the typing indicator; the output area shows
   * the buffer (or what it showed before, when there were no fragments)
   * after "[DONE]", and the message of the server's error text otherwise.
   */
  lemma ExplicitDirectionEndToEnd(v: Variant, request: TranslateRequest, intent: IntentResult,
                                  dumps: IntentMeta -> string, up: Upstream, s: UiState,
                                  parseMeta: string -> Option<MetaView>)
    requires request.direction.Some?
    requires forall i :: 0 <= i < |Forwarded(up)| ==> Plain(Forwarded(up)[i])
    ensures var h := Translate(v, true, request, intent, dumps, up);
            var t := Receive(s, Concat(h.reply.events), parseMeta);
            var items := StreamOutput(request.direction.value.Wire(), up);
            var marker := items[|items| - 1];
            && h.reply.EventStream?
            && !t.translating && !t.typing
            && t.buffer == s.buffer + Concat(Forwarded(up))
            && (marker == Done ==> t.area == (if Forwarded(up) == [] then s.area else [Markdown(t.buffer)]))
            && (marker != Done ==> |marker| > 8 && t.area == [ErrorText(marker[8..])])
  {
    var d := request.direction.value;
    ClassifierOnlyOnAutoPath(v, true, request, intent, dumps, up);
    StreamReceived(s, d, up, parseMeta);
  }

  /** The frames of a stream's items, received in one read. */
  lemma StreamReceived(s: UiState, d: Direction, up: Upstream, parseMeta: string -> Option<MetaView>)
    requires forall i :: 0 <= i < |Forwarded(up)| ==> Plain(Forwarded(up)[i])
    ensures var items := StreamOutput(d.Wire(), up);
            var marker := items[|items| - 1];
            var t := Receive(s, Concat(FrameAll(items)), parseMeta);
            && !t.translating && !t.typing
            && t.buffer == s.buffer + Concat(Forwarded(up))
            && (marker == Done ==> t.area == (if Forwarded(up) == [] then s.area else [Markdown(t.buffer)]))
            && (marker != Done ==> |marker| > 8 && t.area == [ErrorText(marker[8..])])
  {
    StreamItemsBreakFree(d, up);
    BreakFreeReceived(s, StreamOutput(d.Wire(), up), parseMeta);
    StreamDelivered(s, d, up, parseMeta);
  }

  /** A stream whose fragments are plain has no frame break in any item. */
  lemma StreamItemsBreakFree(d: Direction, up: Upstream)
    requires forall i :: 0 <= i < |Forwarded(up)| ==> Plain(Forwarded(up)[i])
    ensures var items := StreamOutput(d.Wire(), up);
            forall i :: 0 <= i < |items| ==> !Contains(items[i], FrameBreak)
  {
    WireRoundTrip(d);
    OutputShape(d.Wire(), up);
    var items := StreamOutput(d.Wire(), up);
    var marker := items[|items| - 1];
    assert items == Forwarded(up) + [marker];
    ItemsBreakFree(Forwarded(up), marker);
  }

  /** Neither advisory text contains a newline, so neither contains a frame break. */
  lemma AdvisoryNoBreak(v: Variant)
    ensures !Contains(AdvisoryText(v), FrameBreak)
  {
    match v
    case ControllerModule => NoNewlineNoBreak(AdvisoryText(v));
    case LegacyMain => NoNewlineNoBreak(AdvisoryText(v));
  }

  /** The advisory line starts with ">", so the page reads it as text. */
  lemma AdvisoryIsText(v: Variant)
    ensures Classify(AdvisoryText(v)) == TextData(AdvisoryText(v))
  {
    assert AdvisoryText(v)[0] == '>';
    ClassifyText(AdvisoryText(v));
  }

  /**
   * The preamble's payloads: the metadata line is added to the area when it
   * parses and leaves the buffer alone; below 0.8 the advisory line and an
   * empty line are appended to the buffer as text.
   */
  lemma PreambleDelivered(s: UiState, v: Variant, m: IntentMeta, dumps: IntentMeta -> string,
                          parseMeta: string -> Option<MetaView>)
    ensures var t := DeliverAll(s, PreambleItems(v, m, dumps), parseMeta);
            && t.translating == s.translating && t.typing == s.typing
            && t.buffer == s.buffer + (if m.confidence < AdviseBelow then AdvisoryText(v) else "")
  {
    var meta := "[META] " + dumps(m);
    var s1 := Deliver(s, meta, parseMeta);
    MetaKeepsStream(s, dumps(m), parseMeta);
    if m.confidence < AdviseBelow {
      var a := AdvisoryText(v);
      assert PreambleItems(v, m, dumps) == [meta, a, ""];
      DeliverAllThree(s, meta, a, "", parseMeta);
      AdvisoryIsText(v);
      ClassifyText("");
      TextKeepsStream(s1, a, parseMeta);
      TextKeepsStream(Deliver(s1, a, parseMeta), "", parseMeta);
      assert s.buffer + a + "" == s.buffer + a;
    } else {
      assert PreambleItems(v, m, dumps) == [meta];
      DeliverAllOne(s, meta, parseMeta);
    }
  }

  /** A "[META] " payload leaves the translation, the typing indicator and the buffer as they were. */
  lemma MetaKeepsStream(s: UiState, json: string, parseMeta: string -> Option<MetaView>)
    ensures var t := Deliver(s, "[META] " + json, parseMeta);
            t.translating == s.translating && t.typing == s.typing && t.buffer == s.buffer
  {
    MetaRead(json);
  }

  /** A text payload leaves the translation and the typing indicator and extends the buffer. */
  lemma TextKeepsStream(s: UiState, data: string, parseMeta: string -> Option<MetaView>)
    requires Classify(data) == TextData(data)
    ensures var t := Deliver(s, data, parseMeta);
            t.translating == s.translating && t.typing == s.typing && t.buffer == s.buffer + data
  {
  }

  lemma DeliverAllOne(s: UiState, x: string, parseMeta: string -> Option<MetaView>)
    ensures DeliverAll(s, [x], parseMeta) == Deliver(s, x, parseMeta)
  {
    assert [x][..0] == [];
  }

  lemma DeliverAllThree(s: UiState, x: string, y: string, z: string, parseMeta: string -> Option<MetaView>)
    ensures DeliverAll(s, [x, y, z], parseMeta) == Deliver(Deliver(Deliver(s, x, parseMeta), y, parseMeta), z, parseMeta)
  {
    assert [x, y, z][..2] == [x, y];
    assert [x, y][..1] == [x];
    DeliverAllOne(s, x, parseMeta);
  }

  /** The preamble's payloads contain no frame break when the metadata text has none. */
  lemma PreambleBreakFree(v: Variant, m: IntentMeta, dumps: IntentMeta -> string)
    requires !Contains(dumps(m), FrameBreak)
    ensures forall i :: 0 <= i < |PreambleItems(v, m, dumps)| ==> !Contains(PreambleItems(v, m, dumps)[i], FrameBreak)
  {
    NoBreakPrefixed("[META] ", dumps(m));
    AdvisoryNoBreak(v);
    NoNewlineNoBreak("");
  }

  /**
   * A translation on the accepted auto-detection path, its whole response
   * body received in one read: when the metadata text and the stream's
   * fragments contain no frame break and the fragments are plain text, the
   * page ends no longer translating, with `outputBuffer` holding the
   * advisory line (below 0.8) followed by the fragments; a stream that
   * failed leaves the server's message in the output area.
   */
  lemma AutoDetectEndToEnd(v: Variant, request: TranslateRequest, intent: IntentResult,
                           dumps: IntentMeta -> string, up: Upstream, s: UiState,
                           parseMeta: string -> Option<MetaView>)
    requires AutoPath(request) && intent.confidence >= 0.5
    requires !Contains(dumps(IntentMeta(intent.direction.Wire(), intent.confidence, intent.reasoning)), FrameBreak)
    requires forall i :: 0 <= i < |Forwarded(up)| ==> Plain(Forwarded(up)[i])
    ensures var h := Translate(v, true, request, intent, dumps, up);
            var t := Receive(s, Concat(h.reply.events), parseMeta);
            var items := StreamOutput(intent.direction.Wire(), up);
            var marker := items[|items| - 1];
            && h.reply.EventStream?
            && !t.translating && !t.typing
            && t.buffer == s.buffer + (if intent.confidence < 0.8 then AdvisoryText(v) else "") + Concat(Forwarded(up))
            && (marker != Done ==> |marker| > 8 && t.area == [ErrorText(marker[8..])])
  {
    var d := intent.direction;
    var m := IntentMeta(d.Wire(), intent.confidence, intent.reasoning);
    var items := StreamOutput(d.Wire(), up);
    var frags := Forwarded(up);
    var marker := items[|items| - 1];
    var pre := PreambleItems(v, m, dumps);
    AutoDetectFramed(v, request, intent, dumps, up);
    AutoDetectItemsBreakFree(v, m, dumps, d, up);
    BreakFreeReceived(s, pre + items, parseMeta);
    DeliverAllAppend(s, pre, items, parseMeta);
    PreambleDelivered(s, v, m, dumps, parseMeta);
    StreamDelivered(DeliverAll(s, pre, parseMeta), d, up, parseMeta);
  }

  /** On the accepted auto-detection path the events are the frames of the preamble's payloads and the stream's items. */
  lemma AutoDetectFramed(v: Variant, request: TranslateRequest, intent: IntentResult,
                         dumps: IntentMeta -> string, up: Upstream)
    requires AutoPath(request) && intent.confidence >= 0.5
    ensures var h := Translate(v, true, request, intent, dumps, up);
            var m := IntentMeta(intent.direction.Wire(), intent.confidence, intent.reasoning);
            && h.reply.EventStream?
            && h.reply.events == FrameAll(PreambleItems(v, m, dumps) + StreamOutput(intent.direction.Wire(), up))
  {
    var m := IntentMeta(intent.direction.Wire(), intent.confidence, intent.reasoning);
    AcceptedAutoPathEvents(v, request, intent, dumps, up);
    PreambleFramed(v, m, dumps);
    FrameAllAppend(PreambleItems(v, m, dumps), StreamOutput(intent.direction.Wire(), up));
  }

  /** The preamble's payloads and the stream's items contain no frame break. */
  lemma AutoDetectItemsBreakFree(v: Variant, m: IntentMeta, dumps: IntentMeta -> string, d: Direction, up: Upstream)
    requires !Contains(dumps(m), FrameBreak)
    requires forall i :: 0 <= i < |Forwarded(up)| ==> Plain(Forwarded(up)[i])
    ensures var all := PreambleItems(v, m, dumps) + StreamOutput(d.Wire(), up);
            forall i :: 0 <= i < |all| ==> !Contains(all[i], FrameBreak)
  {
    var pre := PreambleItems(v, m, dumps);
    var items := StreamOutput(d.Wire(), up);
    var all := pre + items;
    StreamItemsBreakFree(d, up);
    PreambleBreakFree(v, m, dumps);
    forall i | 0 <= i < |all| ensures !Contains(all[i], FrameBreak) {
      if i >= |pre| {
        assert all[i] == items[i - |pre|];
      }
    }
  }

  /** A text whose payloads contain no frame break is received as those payloads. */
  lemma BreakFreeReceived(s: UiState, all: seq<string>, parseMeta: string -> Option<MetaView>)
    requires forall i :: 0 <= i < |all| ==> !Contains(all[i], FrameBreak)
    ensures Receive(s, Concat(FrameAll(all)), parseMeta) == DeliverAll(s, all, parseMeta)
  {
    FramesParseBack(all);
  }

  /** The stream's plain fragments and its terminal item, delivered in order. */
  lemma StreamDelivered(s: UiState, d: Direction, up: Upstream, parseMeta: string -> Option<MetaView>)
    requires forall i :: 0 <= i < |Forwarded(up)| ==> Plain(Forwarded(up)[i])
    ensures var items := StreamOutput(d.Wire(), up);
            var marker := items[|items| - 1];
            var t := DeliverAll(s, items, parseMeta);
            && !t.translating && !t.typing
            && t.buffer == s.buffer + Concat(Forwarded(up))
            && (marker == Done ==> t.area == (if Forwarded(up) == [] then s.area else [Markdown(t.buffer)]))
            && (marker != Done ==> |marker| > 8 && t.area == [ErrorText(marker[8..])])
  {
    WireRoundTrip(d);
    OutputShape(d.Wire(), up);
    var items := StreamOutput(d.Wire(), up);
    var marker := items[|items| - 1];
    assert items == Forwarded(up) + [marker];
    PlainThenTerminal(s, Forwarded(up), marker, parseMeta);
  }

  /** Delivering the payloads of one more message continues the delivery of the earlier ones. */
  lemma MessageStep(s: UiState, messages: seq<string>, i: nat, parseMeta: string -> Option<MetaView>)
    requires i < |messages|
    ensures DeliverAll(s, Payloads(messages[..i + 1]), parseMeta) ==
            DeliverAll(DeliverAll(s, Payloads(messages[..i]), parseMeta), Payloads([messages[i]]), parseMeta)
  {
    assert messages[..i + 1] == messages[..i] + [messages[i]];
    PayloadsAppend(messages[..i], [messages[i]]);
    DeliverAllAppend(s, Payloads(messages[..i]), Payloads([messages[i]]), parseMeta);
  }

  // ---------------------------------------------------------------------
  // The page object

  /** The module-level state of the page, updated in place by the handlers. */
  class Page {
    var isTranslating: bool
    var outputBuffer: string
    var typing: bool
    var area: seq<Block>

    /** The page as loaded: idle, empty buffer. */
    constructor ()
      ensures State() == UiState(false, "", false, [])
    {
      isTranslating := false;
      outputBuffer := "";
      typing := false;
      area := [];
    }

    function State(): UiState
      reads this
    {
      UiState(isTranslating, outputBuffer, typing, area)
    }

    /** `setTranslatingState`. */
    method SetTranslatingState(translating: bool)
      modifies this
      ensures State() == old(State()).(translating := translating)
    {
      isTranslating := translating;
    }

    /** `clearOutput`: empty buffer and area, no typing indicator. */
    method ClearOutput()
      modifies this
      ensures State() == old(State()).(buffer := "", area := [], typing := false)
    {
      outputBuffer := "";
      area := [];
      typing := false;
    }

    /** `showError`: the message replaces the area; the typing indicator stops. */
    method ShowError(message: string)
      modifies this
      ensures State() == old(State()).(area := [ErrorText(message)], typing := false)
    {
      area := [ErrorText(message)];
      typing := false;
    }

    /** `appendOutput`: the text is added to the buffer, which is rendered in place of the area. */
    method AppendOutput(text: string)
      modifies this
      ensures State() == old(State()).(buffer := old(outputBuffer) + text, area := [Markdown(old(outputBuffer) + text)])
    {
      outputBuffer := outputBuffer + text;
      area := [Markdown(outputBuffer)];
    }

    /** `displayIntentMeta`: the metadata line is added after what the area shows. */
    method DisplayIntentMeta(meta: MetaView)
      modifies this
      ensures State() == old(State()).(area := old(area) + [MetaBlock(MetaLabel(meta.detectedDirection), meta.confidence >= 0.8)])
    {
      area := area + [MetaBlock(MetaLabel(meta.detectedDirection), meta.confidence >= 0.8)];
    }

    /** The "[DONE]" branch of `handleSSEData`: not translating, no typing indicator. */
    method FinishStream()
      modifies this
      ensures State() == old(State()).(translating := false, typing := false)
    {
      SetTranslatingState(false);
      typing := false;
    }

    /** The "[ERROR]" branch of `handleSSEData`: the message is shown and the translation ends. */
    method FailStream(message: string)
      modifies this
      ensures State() == old(State()).(area := [ErrorText(message)], typing := false, translating := false)
    {
      ShowError(message);
      SetTranslatingState(false);
      typing := false;
    }

    /** `handleSSEData`: the payload dispatched on its marker. */
    method HandleSseData(data: string, parseMeta: string -> Option<MetaView>)
      modifies this
      ensures State() == Deliver(old(State()), data, parseMeta)
    {
      if data == "[DONE]" {
        HandleDone(data, parseMeta);
      } else if IsPrefix("[ERROR]", data) {
        HandleErrorEvent(data, parseMeta);
      } else if IsPrefix("[META]", data) {
        HandleMetaEvent(data, parseMeta);
      } else {
        HandleText(data, parseMeta);
      }
    }

    /** The "[DONE]" branch of `handleSSEData`. */
    method HandleDone(data: string, parseMeta: string -> Option<MetaView>)
      requires data == "[DONE]"
      modifies this
      ensures State() == Deliver(old(State()), data, parseMeta)
    {
      DeliverDone(State(), parseMeta);
      FinishStream();
    }

    /** The "[ERROR]" branch of `handleSSEData`. */
    method HandleErrorEvent(data: string, parseMeta: string -> Option<MetaView>)
      requires data != "[DONE]" && IsPrefix("[ERROR]", data)
      modifies this
      ensures State() == Deliver(old(State()), data, parseMeta)
    {
      var message := ErrorMessage(data);
      DeliverError(State(), data, parseMeta);
      FailStream(message);
    }

    /** The "[META]" branch of `handleSSEData`. */
    method HandleMetaEvent(data: string, parseMeta: string -> Option<MetaView>)
      requires data != "[DONE]" && !IsPrefix("[ERROR]", data) && IsPrefix("[META]", data)
      modifies this
      ensures State() == Deliver(old(State()), data, parseMeta)
    {
      var json := MetaJson(data);
      ClassifyMeta(data);
      var meta := parseMeta(json);
      if meta.Some? {
        DeliverMetaShown(State(), data, parseMeta, json, meta.value);
        DisplayIntentMeta(meta.value);
      } else {
        DeliverMetaIgnored(State(), data, parseMeta, json);
      }
    }

    /** The text branch of `handleSSEData`. */
    method HandleText(data: string, parseMeta: string -> Option<MetaView>)
      requires data != "[DONE]" && !IsPrefix("[ERROR]", data) && !IsPrefix("[META]", data)
      modifies this
      ensures State() == Deliver(old(State()), data, parseMeta)
    {
      DeliverText(State(), data, parseMeta);
      AppendOutput(data);
    }

    /** `processSSEChunk`: each message of the received text that starts with "data: ", in order. */
    method ProcessSseChunk(chunk: string, parseMeta: string -> Option<MetaView>)
      modifies this
      ensures State() == Receive(old(State()), chunk, parseMeta)
    {
      var messages := SplitMessages(chunk);
      ghost var start := State();
      var i := 0;
      while i < |messages|
        invariant 0 <= i <= |messages|
        invariant State() == DeliverAll(start, Payloads(messages[..i]), parseMeta)
      {
        HandleMessage(messages[i], parseMeta);
        MessageStep(start, messages, i, parseMeta);
        i := i + 1;
      }
      assert messages[..i] == messages;
    }

    /** One message of the loop in `processSSEChunk`: its payload is handled when it starts with "data: ". */
    method HandleMessage(message: string, parseMeta: string -> Option<MetaView>)
      modifies this
      ensures State() == DeliverAll(old(State()), Payloads([message]), parseMeta)
    {
      assert [message][..0] == [];
      if IsPrefix(DataPrefix, message) {
        assert Payloads([message]) == [message[6..]];
        DeliverAllOne(State(), message[6..], parseMeta);
        HandleSseData(message[6..], parseMeta);
      } else {
        assert Payloads([message]) == [];
      }
    }

    /**
     * `handleTranslate` with `sendTranslateRequest`: validate, refuse a
     * second submission, reset, post, then process every received text;
     * a failed request or a broken-off read shows the generic failure.
     */
    method HandleTranslate(raw: string, select: string, reply: HttpReply, parseMeta: string -> Option<MetaView>)
      returns (sent: Option<Body>)
      modifies this
      ensures (State(), sent) == Submit(old(State()), raw, select, reply, parseMeta)
    {
      sent := None;
      var problem := InputProblem(raw);
      if problem.Some? {
        ShowError(problem.value);
        return;
      }
      if isTranslating {
        return;
      }
      SetTranslatingState(true);
      ClearOutput();
      var content := Trim(JsSpace, raw);
      sent := Some(RequestBody(select, content));
      ReadReply(reply, parseMeta);
    }

    /** The part of `sendTranslateRequest` after the request is posted: the reply read to its end. */
    method ReadReply(reply: HttpReply, parseMeta: string -> Option<MetaView>)
      modifies this
      ensures State() == Outcome(old(State()), reply, parseMeta)
    {
      match reply {
        case Rejected(_) =>
          ShowError(RequestFailed);
          SetTranslatingState(false);
        case Unreachable =>
          ShowError(RequestFailed);
          SetTranslatingState(false);
        case Streamed(received, brokeOff) =>
          typing := true;
          area := [];
          ReadStream(received, parseMeta);
          if brokeOff {
            ShowError(RequestFailed);
            SetTranslatingState(false);
          }
      }
    }

    /** The read loop of `sendTranslateRequest`: every received text processed in order. */
    method ReadStream(received: seq<string>, parseMeta: string -> Option<MetaView>)
      modifies this
      ensures State() == ReceiveAll(old(State()), received, parseMeta)
    {
      ghost var streaming := State();
      var i := 0;
      while i < |received|
        invariant 0 <= i <= |received|
        invariant State() == ReceiveAll(streaming, received[..i], parseMeta)
      {
        assert received[..i + 1][..i] == received[..i];
        ProcessSseChunk(received[i], parseMeta);
        i := i + 1;
      }
      assert received[..i] == received;
    }
  }
}
