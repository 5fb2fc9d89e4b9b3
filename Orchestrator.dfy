/**
 * The `/api/translate` handler of src/controllers/translate.py and its
 * older copy in src/main.py: the credential check, the choice between the
 * explicit direction and intent detection, the 0.5 rejection and 0.8
 * advisory thresholds, and the Server-Sent-Events framing of the
 * translator's output.  The two files differ only in the advisory text,
 * so both are one function with a `Variant` argument.
 */
module Orchestrator {
  import opened TextOps
  import opened Enums
  import opened Requests
  import opened Router
  import opened Translator

  /** Which copy of the handler: src/controllers/translate.py or src/main.py. */
  datatype Variant = ControllerModule | LegacyMain

  /** The advisory line emitted for a moderately confident detection. */
  function AdvisoryText(v: Variant): string {
    match v
    case ControllerModule => "> 系统自动识别翻译方向，如有误请手动选择"
    case LegacyMain => "> ⚠️ 系统自动识别翻译方向，如有误请手动选择"
  }

  const RejectBelow: real := 0.5
  const AdviseBelow: real := 0.8

  /** The `intent_meta` dictionary sent in the "[META]" event. */
  datatype IntentMeta = IntentMeta(detectedDirection: string, confidence: real, reasoning: string)

  /** The `detail` of a JSON error response. */
  datatype Detail = Misconfigured | CannotDetermine(confidence: real)

  /** What the handler returns: a JSON error or a streaming response. */
  datatype Reply = JsonError(status: nat, errorCode: string, detail: Detail) | EventStream(events: seq<string>)

  /**
   * The reply, whether the intent classifier was consulted, and with which
   * direction the translator was run (none when it was not).
   */
  datatype Handled = Handled(reply: Reply, classified: bool, translatedAs: Option<Direction>)

  // ---------------------------------------------------------------------
  // Framing

  /** One SSE event, `f"data: {payload}\n\n"`. */
  function Frame(payload: string): string {
    "data: " + payload + "\n\n"
  }

  /** Each item framed as its own event, in order. */
  function FrameAll(items: seq<string>): (r: seq<string>)
    ensures |r| == |items|
    ensures forall i :: 0 <= i < |items| ==> r[i] == Frame(items[i])
  {
    if items == [] then [] else FrameAll(items[..|items| - 1]) + [Frame(items[|items| - 1])]
  }

  /** Framing distributes over concatenation. */
  lemma FrameAllAppend(a: seq<string>, b: seq<string>)
    ensures FrameAll(a + b) == FrameAll(a) + FrameAll(b)
  {
  }

  /** Framing one more item appends its event. */
  lemma FrameAllStep(items: seq<string>, i: int)
    requires 0 <= i < |items|
    ensures FrameAll(items[..i + 1]) == FrameAll(items[..i]) + [Frame(items[i])]
  {
    var p := items[..i + 1];
    assert p[..|p| - 1] == items[..i];
  }

  /** The payloads sent before the translation: META, then the advisory line and an empty line below 0.8. */
  function PreambleItems(v: Variant, m: IntentMeta, dumps: IntentMeta -> string): seq<string> {
    ["[META] " + dumps(m)] + (if m.confidence < AdviseBelow then [AdvisoryText(v), ""] else [])
  }

  /** The events `generate_sse` sends before the translation: META, then the advisory pair below 0.8. */
  function Preamble(v: Variant, meta: Option<IntentMeta>, dumps: IntentMeta -> string): seq<string> {
    match meta
    case None => []
    case Some(m) =>
      [Frame("[META] " + dumps(m))] +
      (if m.confidence < AdviseBelow then [Frame(AdvisoryText(v)), Frame("")] else [])
  }

  /** The preamble is the framing of its payloads. */
  lemma PreambleFramed(v: Variant, m: IntentMeta, dumps: IntentMeta -> string)
    ensures Preamble(v, Some(m), dumps) == FrameAll(PreambleItems(v, m, dumps))
  {
    var items := PreambleItems(v, m, dumps);
    assert FrameAll(items)[0] == Frame("[META] " + dumps(m));
  }

  /** All events of the streaming response. */
  function SseEvents(v: Variant, meta: Option<IntentMeta>, dumps: IntentMeta -> string, items: seq<string>): seq<string> {
    Preamble(v, meta, dumps) + FrameAll(items)
  }

  /** The first part of `generate_sse`: the META event and, below 0.8, the advisory pair. */
  method SendPreamble(v: Variant, meta: Option<IntentMeta>, dumps: IntentMeta -> string)
    returns (events: seq<string>)
    ensures events == Preamble(v, meta, dumps)
  {
    events := [];
    if meta.Some? {
      events := events + [Frame("[META] " + dumps(meta.value))];
      if meta.value.confidence < AdviseBelow {
        events := events + [Frame(AdvisoryText(v))];
        events := events + [Frame("")];
      }
    }
  }

  /**
   * `generate_sse`: the preamble, then each translator item framed as it
   * is produced.
   */
  method GenerateSse(v: Variant, meta: Option<IntentMeta>, dumps: IntentMeta -> string, items: seq<string>)
    returns (events: seq<string>)
    ensures events == SseEvents(v, meta, dumps, items)
  {
    events := SendPreamble(v, meta, dumps);
    var pre := events;
    var i := 0;
    while i < |items|
      invariant 0 <= i <= |items|
      invariant events == pre + FrameAll(items[..i])
    {
      FrameAllStep(items, i);
      events := events + [Frame(items[i])];
      i := i + 1;
    }
    assert items[..i] == items;
  }

  // ---------------------------------------------------------------------
  // The handler

  /**
   * `translate(request)`.  `intent` is what `detect_intent` returns for the
   * request's content, `up` what the streamed model call does, and `dumps`
   * is `json.dumps` of the metadata.  The request is one the request model
   * accepted, so a request without auto-detection has a direction.
   */
  function Translate(v: Variant, keyPresent: bool, request: TranslateRequest, intent: IntentResult,
                     dumps: IntentMeta -> string, up: Upstream): Handled
    requires request.autoDetect || request.direction.Some?
  {
    if !keyPresent then
      Handled(JsonError(500, "AI_SERVICE_ERROR", Misconfigured), false, None)
    else if request.autoDetect && request.direction.None? then
      if intent.confidence < RejectBelow then
        Handled(JsonError(400, "LOW_CONFIDENCE", CannotDetermine(intent.confidence)), true, None)
      else
        var d := intent.direction;
        var meta := IntentMeta(d.Wire(), intent.confidence, intent.reasoning);
        Handled(EventStream(SseEvents(v, Some(meta), dumps, StreamOutput(d.Wire(), up))), true, Some(d))
    else
      var d := request.direction.value;
      Handled(EventStream(SseEvents(v, None, dumps, StreamOutput(d.Wire(), up))), false, Some(d))
  }

  // ---------------------------------------------------------------------
  // Properties

  /** The auto-detection path: auto-detect requested and no direction given. */
  predicate AutoPath(request: TranslateRequest) {
    request.autoDetect && request.direction.None?
  }

  /** Without a credential the reply is a 500 AI_SERVICE_ERROR and nothing else runs. */
  lemma MissingKeyRejects(v: Variant, request: TranslateRequest, intent: IntentResult, dumps: IntentMeta -> string, up: Upstream)
    requires request.autoDetect || request.direction.Some?
    ensures var h := Translate(v, false, request, intent, dumps, up);
            h.reply == JsonError(500, "AI_SERVICE_ERROR", Misconfigured) && !h.classified && h.translatedAs.None?
  {
  }

  /**
   * The classifier is consulted exactly on the auto-detection path (once the
   * credential is present); an explicit direction always wins and is the
   * one translated with.
   */
  lemma ClassifierOnlyOnAutoPath(v: Variant, keyPresent: bool, request: TranslateRequest, intent: IntentResult,
                                 dumps: IntentMeta -> string, up: Upstream)
    requires request.autoDetect || request.direction.Some?
    ensures var h := Translate(v, keyPresent, request, intent, dumps, up);
            && (h.classified <==> keyPresent && AutoPath(request))
            && (keyPresent && request.direction.Some? ==>
                  h.translatedAs == request.direction &&
                  h.reply == EventStream(FrameAll(StreamOutput(request.direction.value.Wire(), up))))
  {
  }

  /**
   * On the auto-detection path a confidence below 0.5 is refused with a
   * 400 LOW_CONFIDENCE carrying the confidence, and nothing is translated;
   * 0.5 and above proceed with the detected direction.
   */
  lemma LowConfidenceRejects(v: Variant, request: TranslateRequest, intent: IntentResult, dumps: IntentMeta -> string, up: Upstream)
    requires AutoPath(request)
    ensures var h := Translate(v, true, request, intent, dumps, up);
            && (intent.confidence < 0.5 <==> h.reply.JsonError?)
            && (intent.confidence < 0.5 ==>
                  h.reply == JsonError(400, "LOW_CONFIDENCE", CannotDetermine(intent.confidence)) && h.translatedAs.None?)
            && (intent.confidence >= 0.5 ==> h.translatedAs == Some(intent.direction))
  {
  }

  /**
   * On the accepted auto-detection path the first event is the "[META]"
   * event with the detected direction, confidence and reasoning; the
   * advisory pair follows exactly when the confidence is below 0.8; then
   * come the translator's items, framed, in order.
   */
  lemma AcceptedAutoPathEvents(v: Variant, request: TranslateRequest, intent: IntentResult, dumps: IntentMeta -> string, up: Upstream)
    requires AutoPath(request) && intent.confidence >= 0.5
    ensures var h := Translate(v, true, request, intent, dumps, up);
            var meta := IntentMeta(intent.direction.Wire(), intent.confidence, intent.reasoning);
            var advisory := if intent.confidence < 0.8 then [Frame(AdvisoryText(v)), Frame("")] else [];
            && h.reply.EventStream?
            && h.reply.events[0] == Frame("[META] " + dumps(meta))
            && h.reply.events == [Frame("[META] " + dumps(meta))] + advisory + FrameAll(StreamOutput(intent.direction.Wire(), up))
  {
  }

  /**
   * Every streaming reply forwards the translator's items verbatim and in
   * order after the preamble, so it ends with the framed terminal marker:
   * "[DONE]" exactly when the stream completed, an error text otherwise.
   */
  lemma StreamEndsWithTerminal(v: Variant, request: TranslateRequest, intent: IntentResult, dumps: IntentMeta -> string, up: Upstream)
    requires request.autoDetect || request.direction.Some?
    requires Translate(v, true, request, intent, dumps, up).reply.EventStream?
    ensures var h := Translate(v, true, request, intent, dumps, up);
            var events := h.reply.events;
            var items := StreamOutput(h.translatedAs.value.Wire(), up);
            && h.translatedAs.Some?
            && |events| >= |items| >= 1
            && events[|events| - |items|..] == FrameAll(items)
            && events[|events| - 1] == Frame(items[|items| - 1])
            && IsTerminal(items[|items| - 1])
            && (items[|items| - 1] == Done <==> up.Opened? && up.end.Exhausted?)
  {
    var h := Translate(v, true, request, intent, dumps, up);
    var d := h.translatedAs.value;
    assert SystemPrompt(d.Wire()).Some?;
    OutputShape(d.Wire(), up);
    var items := StreamOutput(d.Wire(), up);
    var meta := if AutoPath(request) then Some(IntentMeta(d.Wire(), intent.confidence, intent.reasoning)) else None;
    assert h.reply.events == Preamble(v, meta, dumps) + FrameAll(items);
    FramedSuffix(Preamble(v, meta, dumps), items);
  }

  /** Events that end with framed items end with the frame of the last item. */
  lemma FramedSuffix(pre: seq<string>, items: seq<string>)
    requires |items| >= 1
    ensures var events := pre + FrameAll(items);
            && |events| >= |items|
            && events[|events| - |items|..] == FrameAll(items)
            && events[|events| - 1] == Frame(items[|items| - 1])
  {
    var events := pre + FrameAll(items);
    assert events[|pre|..] == FrameAll(items);
  }

  /**
   * The two copies of the handler agree on everything but the advisory
   * text: their replies are identical unless the advisory pair is sent,
   * and then they differ only in the advisory event.
   */
  lemma VariantsDifferOnlyInAdvisory(keyPresent: bool, request: TranslateRequest, intent: IntentResult,
                                     dumps: IntentMeta -> string, up: Upstream)
    requires request.autoDetect || request.direction.Some?
    ensures var a := Translate(ControllerModule, keyPresent, request, intent, dumps, up);
            var b := Translate(LegacyMain, keyPresent, request, intent, dumps, up);
            && a.classified == b.classified && a.translatedAs == b.translatedAs
            && (!(keyPresent && AutoPath(request) && 0.5 <= intent.confidence < 0.8) ==> a.reply == b.reply)
            && (keyPresent && AutoPath(request) && 0.5 <= intent.confidence < 0.8 ==>
                  a.reply.EventStream? && b.reply.EventStream? &&
                  |a.reply.events| == |b.reply.events| &&
                  a.reply.events[1] == Frame(AdvisoryText(ControllerModule)) &&
                  b.reply.events[1] == Frame(AdvisoryText(LegacyMain)) &&
                  forall i :: 0 <= i < |a.reply.events| && i != 1 ==> a.reply.events[i] == b.reply.events[i])
  {
    if keyPresent && AutoPath(request) && intent.confidence >= RejectBelow {
      var m := IntentMeta(intent.direction.Wire(), intent.confidence, intent.reasoning);
      SseEventsVariants(m, dumps, StreamOutput(intent.direction.Wire(), up));
    }
  }

  /** The events of the two copies for the same metadata and items differ at most in the advisory event. */
  lemma SseEventsVariants(m: IntentMeta, dumps: IntentMeta -> string, items: seq<string>)
    ensures var a := SseEvents(ControllerModule, Some(m), dumps, items);
            var b := SseEvents(LegacyMain, Some(m), dumps, items);
            && (m.confidence >= AdviseBelow ==> a == b)
            && (m.confidence < AdviseBelow ==>
                  |a| == |b| && a[1] == Frame(AdvisoryText(ControllerModule)) && b[1] == Frame(AdvisoryText(LegacyMain)) &&
                  forall i :: 0 <= i < |a| && i != 1 ==> a[i] == b[i])
  {
    if m.confidence < AdviseBelow {
      var a := SseEvents(ControllerModule, Some(m), dumps, items);
      var b := SseEvents(LegacyMain, Some(m), dumps, items);
      var x := Frame("[META] " + dumps(m));
      var rest := [Frame("")] + FrameAll(items);
      assert a == [x, Frame(AdvisoryText(ControllerModule))] + rest;
      assert b == [x, Frame(AdvisoryText(LegacyMain))] + rest;
      forall i | 0 <= i < |a| && i != 1 ensures a[i] == b[i] {
        if i >= 2 {
          assert a[i] == rest[i - 2] == b[i];
        }
      }
    }
  }
}
