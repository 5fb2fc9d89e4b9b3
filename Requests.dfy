/**
 * Validation of the translation request body (src/models/requests.py):
 * the content length bounds, the optional direction, the `auto_detect`
 * flag with its default, and the one cross-field rule that a request
 * without auto-detection must name a direction.
 */
module Requests {
  import opened TextOps
  import opened Enums

  const MinContentLength: nat := 10
  const MaxContentLength: nat := 2000

  /** How a JSON body supplies an optional field: left out, `null`, or a string. */
  datatype Field = Omitted | Null | Given(text: string)

  /** The request body as the HTTP layer receives it. */
  datatype Body = Body(content: Option<string>, direction: Field, autoDetect: Option<bool>)

  /** A constructed `TranslateRequest`. */
  datatype TranslateRequest = TranslateRequest(content: string, direction: Option<Direction>, autoDetect: bool)

  /** The reasons a body is refused (HTTP 422). */
  datatype Issue =
    | ContentMissing
    | ContentTooShort
    | ContentTooLong
    | DirectionMissing
    | DirectionUnknown(token: string)
    | DirectionRequired

  /** The field constraints a constructed request satisfies. */
  predicate ContentInBounds(content: string) {
    MinContentLength <= |content| <= MaxContentLength
  }

  /** The invariant of every constructed request. */
  predicate Valid(r: TranslateRequest) {
    ContentInBounds(r.content) && (r.autoDetect || r.direction.Some?)
  }

  /** The `content` field's errors: required, at least 10 and at most 2000 characters. */
  function ContentIssues(content: Option<string>): seq<Issue> {
    match content
    case None => [ContentMissing]
    case Some(c) =>
      if |c| < MinContentLength then [ContentTooShort]
      else if |c| > MaxContentLength then [ContentTooLong]
      else []
  }

  /** The `direction` field's errors: absent and `null` mean no direction; a string must be a wire value. */
  function DirectionIssues(direction: Field): seq<Issue> {
    match direction
    case Given(t) => if ParseDirection(t).None? then [DirectionUnknown(t)] else []
    case _ => []
  }

  function DirectionValue(direction: Field): Option<Direction> {
    match direction
    case Given(t) => ParseDirection(t)
    case _ => None
  }

  /**
   * Pydantic construction of `TranslateRequest`: field errors are collected
   * first (content, then direction); only when there are none does the
   * model validator reject `auto_detect` false with no direction.
   * `auto_detect` defaults to false and `direction` to none.
   */
  function Validate(body: Body): (r: Result<TranslateRequest, seq<Issue>>)
    ensures r.Ok? ==> Valid(r.value)
    ensures r.Err? ==> r.error != []
  {
    var issues := ContentIssues(body.content) + DirectionIssues(body.direction);
    if issues != [] then Err(issues)
    else
      var request := TranslateRequest(body.content.value, DirectionValue(body.direction),
                                      if body.autoDetect.Some? then body.autoDetect.value else false);
      if !request.autoDetect && request.direction.None? then Err([DirectionRequired])
      else Ok(request)
  }

  /**
   * A body is accepted exactly when its content is present and in bounds,
   * any direction it gives is one of the two wire values, and it either
   * asks for auto-detection or gives a direction; the request keeps the
   * body's content, direction and flag.
   */
  lemma ValidateAcceptsExactly(body: Body)
    ensures Validate(body).Ok? <==>
      body.content.Some? && ContentInBounds(body.content.value) &&
      (body.direction.Given? ==> ParseDirection(body.direction.text).Some?) &&
      (body.autoDetect == Some(true) || body.direction.Given?)
    ensures Validate(body).Ok? ==>
      Validate(body).value == TranslateRequest(body.content.value, DirectionValue(body.direction), body.autoDetect == Some(true))
  {
  }

  /** A body with only a valid content (both other fields at their defaults) is refused. */
  lemma ContentOnlyRefused(content: string)
    ensures Validate(Body(Some(content), Omitted, None)).Err?
  {
  }

  /** Auto-detection without a direction is accepted and leaves the direction empty. */
  lemma AutoDetectWithoutDirection(content: string)
    requires ContentInBounds(content)
    ensures Validate(Body(Some(content), Omitted, Some(true))) == Ok(TranslateRequest(content, None, true))
    ensures Validate(Body(Some(content), Null, Some(true))) == Ok(TranslateRequest(content, None, true))
  {
  }

  /** Auto-detection with a direction is accepted too: the validator rejects one combination only. */
  lemma AutoDetectWithDirection(content: string, d: Direction)
    requires ContentInBounds(content)
    ensures Validate(Body(Some(content), Given(d.Wire()), Some(true))) == Ok(TranslateRequest(content, Some(d), true))
  {
  }

  /** A direction string other than the two wire values is refused, whatever the other fields. */
  lemma UnknownDirectionRefused(body: Body)
    requires body.direction.Given? && body.direction.text != "product_to_dev" && body.direction.text != "dev_to_product"
    ensures Validate(body).Err? && DirectionUnknown(body.direction.text) in Validate(body).error
  {
  }
}
