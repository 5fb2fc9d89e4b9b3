/**
 * The older request model of src/models.py: the same content bounds, but
 * the direction is mandatory and there is no auto-detection flag.  (Python
 * resolves `src.models` to the src/models/ package, which shadows this
 * module file; it is modelled for comparison with the newer model.)
 */
module LegacyModels {
  import opened TextOps
  import opened Enums
  import Requests

  /** A constructed legacy `TranslateRequest`: both fields required. */
  datatype LegacyRequest = LegacyRequest(content: string, direction: Direction)

  /**
   * Pydantic construction of the legacy request: content errors, then
   * direction errors, where an omitted or `null` direction is an error.
   * Fields the model does not declare (such as `auto_detect`) are ignored.
   */
  function ValidateLegacy(body: Requests.Body): (r: Result<LegacyRequest, seq<Requests.Issue>>)
    ensures r.Ok? ==> Requests.ContentInBounds(r.value.content)
    ensures r.Err? ==> r.error != []
  {
    var directionIssues :=
      match body.direction
      case Given(t) => if ParseDirection(t).None? then [Requests.DirectionUnknown(t)] else []
      case _ => [Requests.DirectionMissing];
    var issues := Requests.ContentIssues(body.content) + directionIssues;
    if issues != [] then Err(issues)
    else Ok(LegacyRequest(body.content.value, ParseDirection(body.direction.text).value))
  }

  /**
   * The legacy model accepts exactly the bodies with in-bounds content and
   * one of the two wire values as direction.
   */
  lemma LegacyAcceptsExactly(body: Requests.Body)
    ensures ValidateLegacy(body).Ok? <==>
      body.content.Some? && Requests.ContentInBounds(body.content.value) &&
      body.direction.Given? && (body.direction.text == "product_to_dev" || body.direction.text == "dev_to_product")
  {
  }

  /**
   * Every body the legacy model accepts, the newer model accepts as well,
   * with the same content and direction: the newer model only widens what
   * is allowed.
   */
  lemma LegacyAcceptedIsAccepted(body: Requests.Body)
    requires ValidateLegacy(body).Ok?
    ensures Requests.Validate(body).Ok?
    ensures Requests.Validate(body).value.content == ValidateLegacy(body).value.content
    ensures Requests.Validate(body).value.direction == Some(ValidateLegacy(body).value.direction)
  {
  }
}
