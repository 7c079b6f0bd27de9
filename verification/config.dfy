/**
  The volume-discount rule stored in the shop metafield, the outcomes of parsing
  it, and the checks that turn a parsed value into a usable rule.
 */
module Config {
  import opened Wrappers

  /** What the `products` property of the parsed value turned out to be. */
  datatype ProductsField =
    | Missing
    | NotAnArray
    | ProductList(ids: seq<string>)

  /**
    The outcome of `JSON.parse` on a non-empty configuration value. A JSON value
    that is neither an object nor `null` has none of the three properties, and
    is represented as `JsonValue(Missing, None, None)`.
   */
  datatype ParseOutcome =
    | SyntaxError
    | JsonNull
    | JsonValue(products: ProductsField, minQty: Option<int>, percentOff: Option<int>)

  /** A rule that has passed validation. */
  datatype Rule = Rule(products: seq<string>, minQty: int, percentOff: int)

  /** Why a configuration was turned down; each has its own diagnostic. */
  datatype ConfigError =
    | MissingConfiguration
    | MalformedConfiguration
    | NullConfiguration
    | EmptyProducts
    | InvalidPercentOff

  /** The rule's invariants: some products, a non-zero minimum, a percentage in [1, 80]. */
  predicate ValidRule(rule: Rule) {
    |rule.products| > 0 && rule.minQty != 0 && 1 <= rule.percentOff <= 80
  }

  /** JavaScript truthiness of an optional integer: present and non-zero. */
  predicate Truthy(n: Option<int>) {
    n.Some? && n.value != 0
  }

  /** The configured minimum quantity when it is truthy, and 2 otherwise. */
  function EffectiveMinQty(minQty: Option<int>): (m: int)
    ensures m != 0
    ensures minQty.Some? && minQty.value != 0 ==> m == minQty.value
    ensures minQty == None || minQty == Some(0) ==> m == 2
  {
    if Truthy(minQty) then minQty.value else 2
  }

  /** The products check: the property is falsy, not an array, or an empty array. */
  predicate ProductsRejected(products: ProductsField)
  {
    match products
    case Missing => true
    case NotAnArray => true
    case ProductList(ids) => |ids| == 0
  }

  /** The percentage check: falsy, below 1, or above 80. */
  predicate PercentOffRejected(percentOff: Option<int>)
    ensures PercentOffRejected(percentOff) <==> !(percentOff.Some? && 1 <= percentOff.value <= 80)
  {
    !Truthy(percentOff) || percentOff.value < 1 || percentOff.value > 80
  }

  /**
    Reads and checks the configuration value, in the order the checks are made:
    presence, parsing, the products list, then the percentage.
   */
  function Validate(configValue: Option<string>, parse: string -> ParseOutcome): (r: Result<Rule, ConfigError>)
    ensures r.Success? ==> ValidRule(r.value)
    ensures configValue == None || configValue == Some("") ==> r == Failure(MissingConfiguration)
    ensures configValue.Some? && configValue.value != "" ==>
      match parse(configValue.value)
      case SyntaxError => r == Failure(MalformedConfiguration)
      case JsonNull => r == Failure(NullConfiguration)
      case JsonValue(products, minQty, percentOff) =>
        if !(products.ProductList? && |products.ids| > 0) then r == Failure(EmptyProducts)
        else if !(percentOff.Some? && 1 <= percentOff.value <= 80) then r == Failure(InvalidPercentOff)
        else r == Success(Rule(products.ids, EffectiveMinQty(minQty), percentOff.value))
  {
    if configValue.None? || configValue.value == "" then Failure(MissingConfiguration)
    else
      match parse(configValue.value)
      case SyntaxError => Failure(MalformedConfiguration)
      case JsonNull => Failure(NullConfiguration)
      case JsonValue(products, minQty, percentOff) =>
        if ProductsRejected(products) then Failure(EmptyProducts)
        else if PercentOffRejected(percentOff) then Failure(InvalidPercentOff)
        else Success(Rule(products.ids, EffectiveMinQty(minQty), percentOff.value))
  }
}
