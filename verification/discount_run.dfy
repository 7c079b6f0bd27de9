/**
  The discount function the checkout engine calls for each cart: validate the
  configuration, scan the cart lines, build the result. Every failure degrades
  to the result that applies no discount.
 */
module DiscountRun {
  import opened Wrappers
  import opened CartInput
  import opened Config
  import opened RunResult
  import opened Eligibility

  /**
    The shape every result has: no operation at all, or one operation adding one
    candidate with at least one target, a percentage in [1, 80], chosen "First".
   */
  predicate WellFormed(r: RunResult) {
    || r == NoDiscount
    || (&& |r.operations| == 1
        && r.operations[0].selectionStrategy == First
        && |r.operations[0].candidates| == 1
        && |r.operations[0].candidates[0].targets| > 0
        && 1 <= r.operations[0].candidates[0].value.value <= 80)
  }

  /** The result for the collected targets: nothing to discount, or one candidate covering them all. */
  function BuildResult(targets: seq<Target>, rule: Rule): (r: RunResult)
    ensures ValidRule(rule) ==> WellFormed(r)
    ensures r == NoDiscount <==> |targets| == 0
    ensures r != NoDiscount ==>
      && |r.operations| == 1
      && r.operations[0].selectionStrategy == First
      && r.operations[0].candidates == [Candidate(targets, Percentage(rule.percentOff), Message(rule.minQty, rule.percentOff))]
  {
    if |targets| == 0 then NoDiscount
    else
      var candidate := Candidate(targets, Percentage(rule.percentOff), Message(rule.minQty, rule.percentOff));
      RunResult([ProductDiscountsAdd([candidate], First)])
  }

  /**
    The discount function, with a configuration value of `null` treated like any
    other unusable configuration (see `EvaluateAsWritten` for the code as it stands).
   */
  function Evaluate(input: Input, parse: string -> ParseOutcome): (r: RunResult)
    ensures WellFormed(r)
    ensures ConfigValue(input) == None || ConfigValue(input) == Some("") ==> r == NoDiscount
    ensures ConfigValue(input).Some? && ConfigValue(input).value != "" ==>
      match parse(ConfigValue(input).value)
      case SyntaxError => r == NoDiscount
      case JsonNull => r == NoDiscount
      case JsonValue(products, minQty, percentOff) =>
        (!(products.ProductList? && |products.ids| > 0) ==> r == NoDiscount)
        && (!(percentOff.Some? && 1 <= percentOff.value <= 80) ==> r == NoDiscount)
        && (r != NoDiscount ==> r.operations[0].candidates[0].value == Percentage(percentOff.value))
  {
    match Validate(ConfigValue(input), parse)
    case Failure(_) => NoDiscount
    case Success(rule) => BuildResult(Collect(input.cart.lines, rule), rule)
  }

  /** What the code does: returns a result, or throws out of the function. */
  datatype Outcome = Returned(result: RunResult) | ThrewTypeError

  /**
    The discount function as written: a configuration value that parses to
    `null` passes the presence check and the parse, and then reading
    `config.products` on `null` throws a TypeError outside the `try`.
   */
  function EvaluateAsWritten(input: Input, parse: string -> ParseOutcome): (o: Outcome)
    ensures o.Returned? ==> WellFormed(o.result)
    ensures o == ThrewTypeError <==> Validate(ConfigValue(input), parse) == Failure(NullConfiguration)
  {
    match Validate(ConfigValue(input), parse)
    case Failure(NullConfiguration) => ThrewTypeError
    case Failure(_) => Returned(NoDiscount)
    case Success(rule) => Returned(BuildResult(Collect(input.cart.lines, rule), rule))
  }

  /** The configuration value `null`, with an otherwise empty cart. */
  function NullConfigInput(): Input {
    Input(Some(Shop(Some(Metafield("null")))), Cart([]))
  }

  /** As written, the configuration value "null" makes the function throw. */
  lemma NullConfigThrowsAsWritten(parse: string -> ParseOutcome)
    requires parse("null") == JsonNull
    ensures EvaluateAsWritten(NullConfigInput(), parse) == ThrewTypeError
  {
  }

  /** Corrected, it yields no discount, like every other unusable configuration. */
  lemma NullConfigYieldsNoDiscount(input: Input, parse: string -> ParseOutcome)
    requires ConfigValue(input).Some? && parse(ConfigValue(input).value) == JsonNull
    ensures Evaluate(input, parse) == NoDiscount
  {
  }

  /** Apart from the `null` configuration, the code as written and the corrected model agree. */
  lemma AsWrittenAgreesElsewhere(input: Input, parse: string -> ParseOutcome)
    requires ConfigValue(input).Some? ==> parse(ConfigValue(input).value) != JsonNull
    ensures EvaluateAsWritten(input, parse) == Returned(Evaluate(input, parse))
  {
  }

  /**
    With a valid rule, there is no discount exactly when no line is eligible;
    otherwise the one candidate targets the collected lines with the rule's
    percentage and message, chosen "First".
   */
  lemma EvaluateWithRule(input: Input, parse: string -> ParseOutcome, rule: Rule)
    requires Validate(ConfigValue(input), parse) == Success(rule)
    ensures Evaluate(input, parse) == NoDiscount <==>
      forall i :: 0 <= i < |input.cart.lines| ==> !Eligible(input.cart.lines[i], rule)
    ensures Evaluate(input, parse) != NoDiscount ==>
      Evaluate(input, parse) == RunResult([ProductDiscountsAdd(
        [Candidate(Collect(input.cart.lines, rule), Percentage(rule.percentOff), Message(rule.minQty, rule.percentOff))],
        First)])
  {
    var lines := input.cart.lines;
    CollectFollowsIndices(lines, rule);
    if exists i :: 0 <= i < |lines| && Eligible(lines[i], rule) {
      var i :| 0 <= i < |lines| && Eligible(lines[i], rule);
      CollectMembership(lines, rule, CartLineTarget(lines[i].id));
    }
    if |Collect(lines, rule)| > 0 {
      var ix := EligibleIndices(lines, rule);
      assert Eligible(lines[ix[0]], rule);
    }
  }

  /** A line's id is targeted exactly when that line is eligible under the rule. */
  lemma EvaluateTargets(input: Input, parse: string -> ParseOutcome, rule: Rule, t: Target)
    requires Validate(ConfigValue(input), parse) == Success(rule)
    requires Evaluate(input, parse) != NoDiscount
    ensures t in Evaluate(input, parse).operations[0].candidates[0].targets <==>
      exists i :: 0 <= i < |input.cart.lines| && Eligible(input.cart.lines[i], rule)
        && t == CartLineTarget(input.cart.lines[i].id)
  {
    CollectMembership(input.cart.lines, rule, t);
  }

  function ConfigInput(value: string, lines: seq<CartLine>): Input {
    Input(Some(Shop(Some(Metafield(value)))), Cart(lines))
  }

  /** The message text of a minimum of 2 and 15 percent. */
  lemma MessageTwoFifteen()
    ensures Message(2, 15) == "Buy 2+, get 15% off"
  {
    assert Decimal.IntToString(2) == "2";
    assert Decimal.NatToString(15) == Decimal.NatToString(1) + ['5'];
  }

  /** The message text of a minimum of 2 and 10 percent. */
  lemma MessageTwoTen()
    ensures Message(2, 10) == "Buy 2+, get 10% off"
  {
    assert Decimal.IntToString(2) == "2";
    assert Decimal.NatToString(10) == Decimal.NatToString(1) + ['0'];
  }

  const ScenarioConfig := "{\"products\":[\"gid://P1\"],\"minQty\":2,\"percentOff\":15}"

  /** Three units of a configured product earn the discount. */
  lemma ScenarioEnoughUnits(parse: string -> ParseOutcome)
    requires parse(ScenarioConfig) == JsonValue(ProductList(["gid://P1"]), Some(2), Some(15))
    ensures Evaluate(ConfigInput(ScenarioConfig, [CartLine("L1", ProductVariant(Some("gid://P1")), 3)]), parse)
      == RunResult([ProductDiscountsAdd([Candidate([CartLineTarget("L1")], Percentage(15), "Buy 2+, get 15% off")], First)])
  {
    var lines := [CartLine("L1", ProductVariant(Some("gid://P1")), 3)];
    assert lines[..0] == [];
    MessageTwoFifteen();
    var rule := Rule(["gid://P1"], 2, 15);
    assert Validate(ConfigValue(ConfigInput(ScenarioConfig, lines)), parse) == Success(rule);
    assert Eligible(lines[0], rule);
    assert Collect(lines, rule) == [CartLineTarget("L1")];
  }

  /** One unit of a configured product, below the minimum of 2, earns nothing. */
  lemma ScenarioTooFewUnits(parse: string -> ParseOutcome)
    requires parse(ScenarioConfig) == JsonValue(ProductList(["gid://P1"]), Some(2), Some(15))
    ensures Evaluate(ConfigInput(ScenarioConfig, [CartLine("L1", ProductVariant(Some("gid://P1")), 1)]), parse)
      == NoDiscount
  {
    var lines := [CartLine("L1", ProductVariant(Some("gid://P1")), 1)];
    assert lines[..0] == [];
  }

  /** A percentage of 90 is out of range: no discount, whatever the cart. */
  lemma ScenarioPercentTooHigh(parse: string -> ParseOutcome, lines: seq<CartLine>)
    requires parse("{\"products\":[\"gid://P1\"],\"percentOff\":90}") == JsonValue(ProductList(["gid://P1"]), None, Some(90))
    ensures Evaluate(ConfigInput("{\"products\":[\"gid://P1\"],\"percentOff\":90}", lines), parse) == NoDiscount
  {
  }

  /** Two qualifying lines of different configured products are both targeted, in cart order. */
  lemma ScenarioTwoLines(parse: string -> ParseOutcome)
    requires parse("{\"products\":[\"gid://P1\",\"gid://P2\"],\"percentOff\":10}")
      == JsonValue(ProductList(["gid://P1", "gid://P2"]), None, Some(10))
    ensures Evaluate(ConfigInput("{\"products\":[\"gid://P1\",\"gid://P2\"],\"percentOff\":10}",
        [CartLine("L1", ProductVariant(Some("gid://P2")), 2), CartLine("L2", ProductVariant(Some("gid://P1")), 4)]), parse)
      == RunResult([ProductDiscountsAdd([Candidate([CartLineTarget("L1"), CartLineTarget("L2")], Percentage(10), "Buy 2+, get 10% off")], First)])
  {
    var lines := [CartLine("L1", ProductVariant(Some("gid://P2")), 2), CartLine("L2", ProductVariant(Some("gid://P1")), 4)];
    assert lines[..1][..0] == [];
    assert lines[..2][..1] == lines[..1];
    assert lines[..2] == lines;
    MessageTwoTen();
    var rule := Rule(["gid://P1", "gid://P2"], 2, 10);
    assert Validate(ConfigValue(ConfigInput("{\"products\":[\"gid://P1\",\"gid://P2\"],\"percentOff\":10}", lines)), parse) == Success(rule);
    assert Eligible(lines[0], rule) && Eligible(lines[1], rule);
    assert Collect(lines[..1], rule) == [CartLineTarget("L1")];
    assert Collect(lines, rule) == [CartLineTarget("L1"), CartLineTarget("L2")];
  }
}
