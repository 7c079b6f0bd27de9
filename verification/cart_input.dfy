/**
  The cart snapshot the checkout engine hands to the discount function: the
  shop's configuration metafield, if any, and the cart's lines.
 */
module CartInput {
  import opened Wrappers

  /** The `__typename`-tagged merchandise of a cart line. Only a product
      variant can carry the id of its product (which may itself be absent). */
  datatype Merchandise =
    | ProductVariant(productId: Option<string>)
    | Other

  datatype CartLine = CartLine(id: string, merchandise: Merchandise, quantity: nat)

  datatype Metafield = Metafield(value: string)

  datatype Shop = Shop(metafield: Option<Metafield>)

  datatype Cart = Cart(lines: seq<CartLine>)

  datatype Input = Input(shop: Option<Shop>, cart: Cart)

  /** The metafield value, absent when the shop or its metafield is. */
  function ConfigValue(input: Input): Option<string>
  {
    match input.shop
    case None => None
    case Some(shop) =>
      match shop.metafield
      case None => None
      case Some(field) => Some(field.value)
  }
}
