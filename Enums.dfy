/**
 * The translation direction enumeration of src/models/enums.py: a closed
 * variant with exactly two values, each with its wire string.
 */
module Enums {
  import opened TextOps

  datatype Direction = ProductToDev | DevToProduct {
    /** The enum member's `.value`, used on the wire and as the prompt key. */
    function Wire(): string {
      match this
      case ProductToDev => "product_to_dev"
      case DevToProduct => "dev_to_product"
    }
  }

  /**
   * Constructing the enum from a wire string: only the two wire values are
   * accepted, and each gives back the member it names.
   */
  function ParseDirection(token: string): (r: Option<Direction>)
    ensures r.Some? <==> token == "product_to_dev" || token == "dev_to_product"
    ensures r.Some? ==> r.value.Wire() == token
  {
    if token == "product_to_dev" then Some(ProductToDev)
    else if token == "dev_to_product" then Some(DevToProduct)
    else None
  }

  /** Every member's wire string parses back to that member, and the two wire strings differ. */
  lemma WireRoundTrip(d: Direction)
    ensures ParseDirection(d.Wire()) == Some(d)
    ensures forall e: Direction :: e.Wire() == d.Wire() ==> e == d
  {
  }
}
