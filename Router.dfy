/**
 * The intent router of src/router.py: turning the classifier model's reply
 * into an `IntentResult` (direction, confidence in [0, 1], reasoning), and
 * the fallbacks `detect_intent` returns instead of raising.
 *
 * The model call is an input (`ClassifierCall`).  The Python library
 * behaviour the router relies on but that is not part of this repository
 * (`json.loads`, `float(text)` on a string, `str(value)` on a non-string
 * JSON value) is supplied as a `Runtime` value.
 */
module Router {
  import opened TextOps
  import opened Enums

  // ---------------------------------------------------------------------
  // Result type

  /** A confidence score: pydantic's `ge=0.0, le=1.0` on `IntentResult.confidence`. */
  type Confidence = c: real | 0.0 <= c <= 1.0

  datatype IntentResult = IntentResult(direction: Direction, confidence: Confidence, reasoning: string)

  /**
   * Constructing an `IntentResult` from an unchecked confidence: pydantic
   * refuses a value outside [0, 1] and keeps one inside unchanged.
   */
  function MakeIntentResult(direction: Direction, confidence: real, reasoning: string): (r: Option<IntentResult>)
    ensures r.Some? <==> 0.0 <= confidence <= 1.0
    ensures r.Some? ==> r.value.direction == direction && r.value.confidence as real == confidence && r.value.reasoning == reasoning
  {
    if 0.0 <= confidence <= 1.0 then Some(IntentResult(direction, confidence, reasoning)) else None
  }

  // ---------------------------------------------------------------------
  // Inputs

  /** A decoded JSON value, as `json.loads` returns it (ints and floats are distinct types). */
  datatype Json =
    | JNull
    | JBool(b: bool)
    | JInt(i: int)
    | JFloat(f: real)
    | JString(s: string)
    | JArray(items: seq<Json>)
    | JObject(fields: map<string, Json>)

  /** Python library behaviour the router depends on. */
  datatype Runtime = Runtime(
    loads: string -> Option<Json>,           // json.loads; None when it raises JSONDecodeError
    floatOfText: string -> Result<real, string>, // float(s); Err carries the ValueError's message
    show: Json -> string)                    // str(v) for a value that is not a string

  /** What the non-streaming classifier call produced. */
  datatype ClassifierCall =
    | Answered(text: string)      // choices[0].message.content
    | ApiFailed(message: string)  // an OpenAIError, with str(e)
    | Crashed(message: string)    // any other exception around the call, with str(e)

  // ---------------------------------------------------------------------
  // Fence stripping

  const JsonFence: string := "```json"
  const Fence: string := "```"

  /**
   * The JSON text inside the reply: after the first "```json" (up to the
   * next "```json", then up to the first "```"), else after the first "```"
   * up to the next, each stripped; otherwise the reply itself.
   */
  function ExtractJson(reply: string): string {
    if Contains(reply, JsonFence) then Trim(PythonSpace, Before(SecondPiece(reply, JsonFence), Fence))
    else if Contains(reply, Fence) then Trim(PythonSpace, Before(SecondPiece(reply, Fence), Fence))
    else reply
  }

  /** The text that follows the first occurrence of `sep`. */
  function After(s: string, sep: string): string
    requires Contains(s, sep)
  {
    s[Find(s, sep).value + |sep|..]
  }

  /** A run of backticks touching the next "```json" is the one case the nested split reads differently. */
  lemma FenceNoStraddle(t: string)
    requires !Contains(t, "````")
    ensures NoStraddle(t, Fence, JsonFence)
  {
    forall j, k | 0 <= j < k <= |t| && OccursAt(t, Fence, j) && OccursAt(t, JsonFence, k)
      ensures j + |Fence| <= k
    {
      if k < j + 3 {
        assert t[j + 3] == JsonFence[j + 3 - k] == '`';
        assert t[j..j + 4] == "````";
        assert OccursAt(t, "````", j);
      }
    }
  }

  /**
   * With a "```json" fence, the JSON text is what follows the first
   * "```json" up to the next "```", stripped (unless four backticks in a
   * row follow the fence, where the nested split cuts earlier).
   */
  lemma {:induction false} ExtractJsonFenced(reply: string)
    requires Contains(reply, JsonFence) && !Contains(After(reply, JsonFence), "````")
    ensures ExtractJson(reply) == Trim(PythonSpace, Before(After(reply, JsonFence), Fence))
  {
    var t := After(reply, JsonFence);
    FenceNoStraddle(t);
    assert IsPrefix(Fence, JsonFence);
    BeforeLongerThenShorter(t, Fence, JsonFence);
  }

  /**
   * With only bare fences, the JSON text is what lies between the first
   * and the second "```", stripped.
   */
  lemma ExtractJsonBare(reply: string)
    requires !Contains(reply, JsonFence) && Contains(reply, Fence)
    ensures ExtractJson(reply) == Trim(PythonSpace, Before(After(reply, Fence), Fence))
  {
    BeforeIdempotent(After(reply, Fence), Fence);
  }

  /** Without any fence the reply is used as it is. */
  lemma ExtractJsonUnfenced(reply: string)
    requires !Contains(reply, Fence)
    ensures ExtractJson(reply) == reply
  {
    if Contains(reply, JsonFence) {
      var i :| 0 <= i <= |reply| && OccursAt(reply, JsonFence, i);
      assert reply[i..i + 3] == reply[i..i + 7][..3] == JsonFence[..3] == Fence;
      assert OccursAt(reply, Fence, i);
    }
  }

  // ---------------------------------------------------------------------
  // Field handling

  /** `dict.get(key, default)`. */
  function Get(fields: map<string, Json>, key: string, default: Json): Json {
    if key in fields then fields[key] else default
  }

  /**
   * The direction of `data.get("direction", "product_to_dev")`: exactly the
   * two wire strings name a direction; anything else means product_to_dev.
   */
  function DirectionOf(value: Json): (d: Direction)
    ensures value == JString("dev_to_product") <==> d == DevToProduct
  {
    if value == JString("product_to_dev") then ProductToDev
    else if value == JString("dev_to_product") then DevToProduct
    else ProductToDev
  }

  /**
   * The outcome of Python's `float(value)`: a number, a TypeError (which
   * `_parse_response` catches), or another exception (which it does not).
   */
  datatype Conversion = Converted(value: real) | TypeMismatch | Uncaught(message: string)

  /**
   * The least magnitude of an `int` that `float` refuses with OverflowError:
   * 2^1024 - 2^970, halfway between the largest double and 2^1024, where
   * round-half-even rounds up.
   */
  const FloatOverflowAt: int :=
    0xFFFFFFFF_FFFFFC00_00000000_00000000_00000000_00000000_00000000_00000000_00000000_00000000_00000000_00000000_00000000_00000000_00000000_00000000_00000000_00000000_00000000_00000000_00000000_00000000_00000000_00000000_00000000_00000000_00000000_00000000_00000000_00000000_00000000_00000000

  const OverflowMessage: string := "int too large to convert to float"

  /**
   * `float(value)` on a decoded JSON value: booleans and numbers convert
   * (an int beyond the double range raises OverflowError), strings are
   * parsed (a ValueError when not numeric), and null, lists and objects
   * raise TypeError.
   */
  function FloatOf(value: Json, rt: Runtime): (r: Conversion)
    ensures r.TypeMismatch? <==> value.JNull? || value.JArray? || value.JObject?
    ensures r.Uncaught? <==>
              (value.JString? && rt.floatOfText(value.s).Err?) ||
              (value.JInt? && (value.i >= FloatOverflowAt || value.i <= -FloatOverflowAt))
  {
    match value
    case JBool(b) => Converted(if b then 1.0 else 0.0)
    case JInt(i) =>
      if i >= FloatOverflowAt || i <= -FloatOverflowAt then Uncaught(OverflowMessage) else Converted(i as real)
    case JFloat(f) => Converted(f)
    case JString(s) =>
      (match rt.floatOfText(s)
       case Ok(r) => Converted(r)
       case Err(m) => Uncaught(m))
    case _ => TypeMismatch
  }

  /** `max(0.0, min(1.0, c))`. */
  function Clamp(c: real): (r: Confidence)
    ensures 0.0 <= c <= 1.0 ==> r == c
    ensures c > 1.0 ==> r == 1.0
    ensures c < 0.0 ==> r == 0.0
  {
    var m := if c < 1.0 then c else 1.0;
    if m > 0.0 then m else 0.0
  }

  /** `str(value)`: a string is itself; other values are rendered by Python. */
  function Str(value: Json, rt: Runtime): string {
    if value.JString? then value.s else rt.show(value)
  }

  /** The Python type name `type(v).__name__` of a decoded JSON value. */
  function TypeName(value: Json): string {
    match value
    case JNull => "NoneType"
    case JBool(_) => "bool"
    case JInt(_) => "int"
    case JFloat(_) => "float"
    case JString(_) => "str"
    case JArray(_) => "list"
    case JObject(_) => "dict"
  }

  // ---------------------------------------------------------------------
  // Parsing the reply

  /** An exception that leaves `_parse_response` (it does not catch it): AttributeError, ValueError or OverflowError. */
  datatype Escape = NotAMapping(typeName: string) | NotANumber(message: string)

  function EscapeText(e: Escape): string {
    match e
    case NotAMapping(t) => "'" + t + "' object has no attribute 'get'"
    case NotANumber(m) => m
  }

  /** The result `_parse_response` returns when JSON decoding or `float` raises a caught error. */
  const ParseFallback: IntentResult := IntentResult(ProductToDev, 0.3, "无法解析 LLM 响应，使用默认方向")

  /**
   * `_parse_response`: decode the extracted JSON, map the direction, clamp
   * the confidence (0.5 when absent) and take the reasoning ("" when
   * absent).  A decode error or a TypeError yields `ParseFallback`; a
   * non-object value or a non-numeric confidence string escapes.
   */
  function ParseResponse(reply: string, rt: Runtime): Result<IntentResult, Escape> {
    match rt.loads(ExtractJson(reply))
    case None => Ok(ParseFallback)
    case Some(data) =>
      if !data.JObject? then Err(NotAMapping(TypeName(data)))
      else
        var direction := DirectionOf(Get(data.fields, "direction", JString("product_to_dev")));
        match FloatOf(Get(data.fields, "confidence", JFloat(0.5)), rt)
        case TypeMismatch => Ok(ParseFallback)
        case Uncaught(m) => Err(NotANumber(m))
        case Converted(c) =>
          Ok(IntentResult(direction, Clamp(c), Str(Get(data.fields, "reasoning", JString("")), rt)))
  }

  /**
   * `detect_intent`: never raises.  An API error gives confidence 0.0 with
   * an "API 错误" reasoning; any other failure, including an exception
   * escaping the parser, gives 0.0 with a "识别失败" reasoning.
   */
  function DetectIntent(call: ClassifierCall, rt: Runtime): IntentResult {
    match call
    case ApiFailed(m) => IntentResult(ProductToDev, 0.0, "API 错误，无法识别意图: " + m)
    case Crashed(m) => IntentResult(ProductToDev, 0.0, "识别失败: " + m)
    case Answered(text) =>
      match ParseResponse(Trim(PythonSpace, text), rt)
      case Ok(r) => r
      case Err(e) => IntentResult(ProductToDev, 0.0, "识别失败: " + EscapeText(e))
  }

  // ---------------------------------------------------------------------
  // Properties

  /**
   * A well-formed JSON object is read field by field: the direction from
   * the wire string (product_to_dev otherwise, confidence unaffected), the
   * clamped confidence, the reasoning as text.
   */
  lemma ParseObject(reply: string, rt: Runtime, fields: map<string, Json>, c: real)
    requires rt.loads(ExtractJson(reply)) == Some(JObject(fields))
    requires FloatOf(Get(fields, "confidence", JFloat(0.5)), rt) == Converted(c)
    ensures ParseResponse(reply, rt).Ok?
    ensures var r := ParseResponse(reply, rt).value;
            && (r.direction == DevToProduct <==> "direction" in fields && fields["direction"] == JString("dev_to_product"))
            && r.confidence == Clamp(c)
            && r.reasoning == (if "reasoning" in fields then Str(fields["reasoning"], rt) else "")
  {
  }

  /** A missing or unknown direction falls back to product_to_dev and keeps the parsed confidence. */
  lemma UnknownDirectionDefaults(reply: string, rt: Runtime, fields: map<string, Json>, c: real)
    requires rt.loads(ExtractJson(reply)) == Some(JObject(fields))
    requires "direction" !in fields || fields["direction"] !in {JString("product_to_dev"), JString("dev_to_product")}
    requires FloatOf(Get(fields, "confidence", JFloat(0.5)), rt) == Converted(c)
    ensures ParseResponse(reply, rt) == Ok(IntentResult(ProductToDev, Clamp(c), Str(Get(fields, "reasoning", JString("")), rt)))
  {
  }

  /** An absent confidence reads as 0.5. */
  lemma MissingConfidenceIsHalf(reply: string, rt: Runtime, fields: map<string, Json>)
    requires rt.loads(ExtractJson(reply)) == Some(JObject(fields)) && "confidence" !in fields
    ensures ParseResponse(reply, rt).Ok? && ParseResponse(reply, rt).value.confidence == 0.5
  {
  }

  /** A reply that does not decode as JSON gives exactly the 0.3 fallback. */
  lemma UndecodableFallback(text: string, rt: Runtime)
    requires rt.loads(ExtractJson(Trim(PythonSpace, text))) == None
    ensures DetectIntent(Answered(text), rt) == IntentResult(ProductToDev, 0.3, "无法解析 LLM 响应，使用默认方向")
  {
  }

  /**
   * A confidence of a type `float` rejects with TypeError (null, a list,
   * an object) gives the 0.3 fallback too, whatever the other fields say.
   */
  lemma UnconvertibleConfidenceFallback(text: string, rt: Runtime, fields: map<string, Json>)
    requires rt.loads(ExtractJson(Trim(PythonSpace, text))) == Some(JObject(fields))
    requires "confidence" in fields && (fields["confidence"].JNull? || fields["confidence"].JArray? || fields["confidence"].JObject?)
    ensures DetectIntent(Answered(text), rt) == ParseFallback
  {
  }

  /**
   * `detect_intent` never fails and its confidence says how it ended: 0.0
   * when the call failed or the parser raised, 0.3 after a decoding
   * failure, otherwise the clamped model confidence.
   */
  lemma DetectOutcomes(call: ClassifierCall, rt: Runtime)
    ensures call.ApiFailed? ==> DetectIntent(call, rt) == IntentResult(ProductToDev, 0.0, "API 错误，无法识别意图: " + call.message)
    ensures call.Crashed? ==> DetectIntent(call, rt) == IntentResult(ProductToDev, 0.0, "识别失败: " + call.message)
    ensures call.Answered? && ParseResponse(Trim(PythonSpace, call.text), rt).Err? ==>
              var r := DetectIntent(call, rt);
              r.direction == ProductToDev && r.confidence == 0.0 && IsPrefix("识别失败: ", r.reasoning)
    ensures 0.0 <= DetectIntent(call, rt).confidence <= 1.0
  {
    match call
    case ApiFailed(_) =>
    case Crashed(_) =>
    case Answered(text) => AnsweredOutcome(text, rt);
  }

  /** An answered call whose parse escapes gives 0.0 with a "识别失败" reasoning. */
  lemma AnsweredOutcome(text: string, rt: Runtime)
    ensures ParseResponse(Trim(PythonSpace, text), rt).Err? ==>
              var r := DetectIntent(Answered(text), rt);
              r.direction == ProductToDev && r.confidence == 0.0 && IsPrefix("识别失败: ", r.reasoning)
  {
    var p := ParseResponse(Trim(PythonSpace, text), rt);
    if p.Err? {
      PrefixOfConcat("识别失败: ", EscapeText(p.error));
    }
  }
  /**
   * `_parse_response` raises exactly when the decoded value is not an
   * object (AttributeError on `get`), or its confidence is a string
   * `float` cannot parse (ValueError) or an int beyond the double range
   * (OverflowError): the three exceptions its handler does not name.
   */
  lemma ParseEscapesExactly(reply: string, rt: Runtime)
    ensures ParseResponse(reply, rt).Err? <==>
              var j := rt.loads(ExtractJson(reply));
              j.Some? &&
              (!j.value.JObject? ||
               ("confidence" in j.value.fields &&
                var c := j.value.fields["confidence"];
                (c.JString? && rt.floatOfText(c.s).Err?) ||
                (c.JInt? && (c.i >= FloatOverflowAt || c.i <= -FloatOverflowAt))))
  {
  }

  /** A JSON value that is not an object has no `get`: `detect_intent` reports the AttributeError with 0.0. */
  lemma NonObjectEscapes(text: string, rt: Runtime, v: Json)
    requires rt.loads(ExtractJson(Trim(PythonSpace, text))) == Some(v) && !v.JObject?
    ensures DetectIntent(Answered(text), rt) ==
              IntentResult(ProductToDev, 0.0, "识别失败: " + ("'" + TypeName(v) + "' object has no attribute 'get'"))
  {
  }

  /** A confidence string `float` cannot parse: `detect_intent` reports the ValueError with 0.0, not the 0.3 fallback. */
  lemma NonNumericConfidenceEscapes(text: string, rt: Runtime, fields: map<string, Json>, lit: string, m: string)
    requires rt.loads(ExtractJson(Trim(PythonSpace, text))) == Some(JObject(fields))
    requires "confidence" in fields && fields["confidence"] == JString(lit) && rt.floatOfText(lit) == Err(m)
    ensures DetectIntent(Answered(text), rt) == IntentResult(ProductToDev, 0.0, "识别失败: " + m)
  {
  }

  /** An integer confidence beyond the double range: `detect_intent` reports the OverflowError with 0.0. */
  lemma OverflowingConfidenceEscapes(text: string, rt: Runtime, fields: map<string, Json>, i: int)
    requires rt.loads(ExtractJson(Trim(PythonSpace, text))) == Some(JObject(fields))
    requires "confidence" in fields && fields["confidence"] == JInt(i)
    requires i >= FloatOverflowAt || i <= -FloatOverflowAt
    ensures DetectIntent(Answered(text), rt) ==
              IntentResult(ProductToDev, 0.0, "识别失败: " + OverflowMessage)
  {
  }

  // ---------------------------------------------------------------------
  // Fenced and unfenced replies

  /**
   * A body that a closing "```" delimits exactly: no "```" inside and no
   * backtick at its end.  Inline code quoted in a JSON string is allowed.
   */
  predicate FenceFree(body: string) {
    !Contains(body, Fence) && (body == [] || body[|body| - 1] != '`')
  }

  /** A slice of a text without `p` has no `p` either. */
  lemma SliceWithout(s: string, p: string, i: nat, j: nat)
    requires i <= j <= |s| && !Contains(s, p)
    ensures !Contains(s[i..j], p)
  {
    if Contains(s[i..j], p) {
      var k :| 0 <= k <= j - i && OccursAt(s[i..j], p, k);
      forall m | 0 <= m < |p| ensures s[i + k..i + k + |p|][m] == p[m] {
        assert s[i..j][k..k + |p|][m] == s[i + k + m];
      }
      assert OccursAt(s, p, i + k);
    }
  }

  /** A text that does not start with `p` at `i` does not start with any extension of `p` there. */
  lemma NotOccursLonger(s: string, p: string, q: string, i: nat)
    requires IsPrefix(p, q) && !OccursAt(s, p, i)
    ensures !OccursAt(s, q, i)
  {
    if i + |q| <= |s| {
      assert s[i..i + |q|][..|p|] == s[i..i + |p|];
    }
  }

  /** In `body + "```"`, with `body` fence-free, no fence starts inside `body`. */
  lemma NoFenceBeforeClosing(body: string)
    requires FenceFree(body)
    ensures forall i :: 0 <= i < |body| ==> !OccursAt(body + Fence, Fence, i)
  {
    var t := body + Fence;
    forall i | 0 <= i < |body| ensures !OccursAt(t, Fence, i) {
      if i + 3 <= |body| {
        assert t[i..i + 3] == body[i..i + 3];
        assert !OccursAt(body, Fence, i);
      } else {
        MismatchNotAt(t, Fence, i, |body| - 1 - i);
      }
    }
  }

  /** In `body + "```"`, with `body` fence-free, the first fence is the closing one. */
  lemma ClosingFence(body: string)
    requires FenceFree(body)
    ensures Find(body + Fence, Fence) == Some(|body|)
    ensures Before(body + Fence, Fence) == body
    ensures !Contains(body + Fence, JsonFence)
  {
    var t := body + Fence;
    assert t[|body|..] == Fence;
    assert OccursAt(t, Fence, |body|);
    NoFenceBeforeClosing(body);
    assert Find(t, Fence) == Some(|body|);
    assert IsPrefix(Fence, JsonFence);
    forall i | 0 <= i <= |t| ensures !OccursAt(t, JsonFence, i) {
      if i < |body| {
        NotOccursLonger(t, Fence, JsonFence, i);
      }
    }
  }

  /** The classifier's verdict on a reply without fences. */
  lemma UnfencedReply(body: string, rt: Runtime)
    requires !Contains(body, Fence)
    ensures DetectIntent(Answered(body), rt) ==
              match ParseResponse(Trim(PythonSpace, body), rt)
              case Ok(r) => r
              case Err(e) => IntentResult(ProductToDev, 0.0, "识别失败: " + EscapeText(e))
    ensures ExtractJson(Trim(PythonSpace, body)) == Trim(PythonSpace, body)
  {
    UnfencedExtraction(body);
  }

  /** A stripped reply without fences is its own JSON text. */
  lemma UnfencedExtraction(body: string)
    requires !Contains(body, Fence)
    ensures ExtractJson(Trim(PythonSpace, body)) == Trim(PythonSpace, body)
  {
    var r := Trim(PythonSpace, body);
    var i, j :| 0 <= i <= j <= |body| && r == body[i..j];
    SliceWithout(body, Fence, i, j);
    ExtractJsonUnfenced(r);
  }

  /** The parse depends on the reply only through the JSON text extracted from it. */
  lemma SameExtractionSameParse(x: string, y: string, rt: Runtime)
    requires ExtractJson(x) == ExtractJson(y)
    ensures ParseResponse(x, rt) == ParseResponse(y, rt)
  {
  }

  /** The verdict depends on the reply only through the JSON text extracted from its stripped form. */
  lemma SameExtractionSameVerdict(x: string, y: string, rt: Runtime)
    requires ExtractJson(Trim(PythonSpace, x)) == ExtractJson(Trim(PythonSpace, y))
    ensures DetectIntent(Answered(x), rt) == DetectIntent(Answered(y), rt)
  {
    SameExtractionSameParse(Trim(PythonSpace, x), Trim(PythonSpace, y), rt);
  }

  /** The JSON text inside a "```json" fence around a fence-free body. */
  lemma {:induction false} JsonFencedText(body: string)
    requires FenceFree(body)
    ensures ExtractJson(JsonFence + body + Fence) == Trim(PythonSpace, body)
  {
    var t := body + Fence;
    assert JsonFence + body + Fence == JsonFence + t;
    SecondPieceAfterLead(JsonFence, t);
    ClosingFence(body);
  }

  /** A text that starts with the separator: `split(sep)[1]` is the rest up to the next separator. */
  lemma SecondPieceAfterLead(sep: string, t: string)
    ensures Contains(sep + t, sep) && SecondPiece(sep + t, sep) == Before(t, sep)
  {
    assert OccursAt(sep + t, sep, 0);
    assert (sep + t)[|sep|..] == t;
  }

  /** One mismatching character rules out an occurrence. */
  lemma MismatchNotAt(s: string, p: string, i: nat, k: nat)
    requires k < |p| && i + k < |s| && s[i + k] != p[k]
    ensures !OccursAt(s, p, i)
  {
    if i + |p| <= |s| {
      assert s[i..i + |p|][k] == s[i + k];
    }
  }

  /** An occurrence past a prefix is an occurrence in the rest. */
  lemma OccursAfterPrefix(x: string, y: string, p: string, i: nat)
    ensures OccursAt(x + y, p, |x| + i) <==> OccursAt(y, p, i)
  {
    if |x| + i + |p| <= |x + y| {
      assert (x + y)[|x| + i..|x| + i + |p|] == y[i..i + |p|];
    }
  }

  /** A bare fence around a body that does not begin with "json" does not begin with "```json". */
  lemma JsonTagNotAtStart(body: string)
    requires !IsPrefix("json", body)
    ensures !OccursAt(Fence + body + Fence, JsonFence, 0)
  {
    var s := Fence + body + Fence;
    if |body| >= 4 {
      assert s[3..7] == body[..4];
      assert JsonFence[3..7] == "json";
    } else {
      assert s[3 + |body|] == '`';
      MismatchNotAt(s, JsonFence, 0, 3 + |body|);
    }
  }

  /**
   * The body of a bare fence with no "```json" in it: the opening fence is
   * not "```json" and no fence of the body starts one.
   */
  lemma BareFenceNoJsonTag(body: string)
    requires FenceFree(body) && (body == [] || body[0] != '`') && !IsPrefix("json", body)
    ensures !Contains(Fence + body + Fence, JsonFence)
  {
    var s := Fence + body + Fence;
    ClosingFence(body);
    assert s[3..] == body + Fence;
    forall i | 0 <= i <= |s| ensures !OccursAt(s, JsonFence, i) {
      if i == 0 {
        JsonTagNotAtStart(body);
      } else if i < 3 {
        if |body| > 0 {
          assert s[i + (3 - i)] == body[0];
          MismatchNotAt(s, JsonFence, i, 3 - i);
        }
      } else {
        assert s == Fence + (body + Fence);
        OccursAfterPrefix(Fence, body + Fence, JsonFence, i - 3);
      }
    }
  }

  /** The JSON text inside a bare fence around a fence-free body that does not begin with "json" or a backtick. */
  lemma {:induction false} BareFencedText(body: string)
    requires FenceFree(body) && (body == [] || body[0] != '`') && !IsPrefix("json", body)
    ensures ExtractJson(Fence + body + Fence) == Trim(PythonSpace, body)
  {
    var s := Fence + body + Fence;
    BareFenceNoJsonTag(body);
    assert s == Fence + (body + Fence);
    SecondPieceAfterLead(Fence, body + Fence);
    ClosingFence(body);
    BeforeIdempotent(body + Fence, Fence);
  }

  /**
   * A JSON text wrapped in a "```json" fence is classified exactly as the
   * same text without the fence, whenever the closing fence is the first
   * "```" after the opening one.
   */
  lemma JsonFencedLikeUnfenced(body: string, rt: Runtime)
    requires FenceFree(body)
    ensures DetectIntent(Answered(JsonFence + body + Fence), rt) == DetectIntent(Answered(body), rt)
  {
    JsonFencedExtraction(body);
    SameExtractionSameVerdict(JsonFence + body + Fence, body, rt);
  }

  lemma JsonFencedExtraction(body: string)
    requires FenceFree(body)
    ensures ExtractJson(Trim(PythonSpace, JsonFence + body + Fence)) == ExtractJson(Trim(PythonSpace, body))
  {
    TrimKeepsTrimmed(PythonSpace, JsonFence + body + Fence);
    JsonFencedText(body);
    UnfencedExtraction(body);
  }

  /**
   * A JSON text wrapped in a bare "```" fence is classified exactly as the
   * same text without the fence, unless it begins with "json" or a
   * backtick (either can make the opening fence part of a "```json").
   */
  lemma BareFencedLikeUnfenced(body: string, rt: Runtime)
    requires FenceFree(body) && (body == [] || body[0] != '`') && !IsPrefix("json", body)
    ensures DetectIntent(Answered(Fence + body + Fence), rt) == DetectIntent(Answered(body), rt)
  {
    BareFencedExtraction(body);
    SameExtractionSameVerdict(Fence + body + Fence, body, rt);
  }

  lemma BareFencedExtraction(body: string)
    requires FenceFree(body) && (body == [] || body[0] != '`') && !IsPrefix("json", body)
    ensures ExtractJson(Trim(PythonSpace, Fence + body + Fence)) == ExtractJson(Trim(PythonSpace, body))
  {
    TrimKeepsTrimmed(PythonSpace, Fence + body + Fence);
    BareFencedText(body);
    UnfencedExtraction(body);
  }
}
