# Volume discount function — Dafny model

This project models the discount function of a "buy N, get X% off" volume
discount for a storefront checkout (`cartLinesDiscountsGenerateRun`). The
checkout engine hands the function a cart snapshot. The snapshot holds the
shop's configuration metafield (a JSON rule `{products, minQty, percentOff}`)
and the cart lines. The function runs three stages:

1. Validate the configuration. A missing or empty value, a value that does not
   parse, a missing, non-array or empty `products`, or a `percentOff` that is
   missing, zero or outside [1, 80] each yield the no-discount result
   (`operations: []`). `minQty` defaults to 2 when it is absent or 0.
2. Scan the cart lines in order. A line is eligible when its merchandise is a
   product variant with a non-empty product id, that id is configured, and the
   quantity is at least `minQty`.
3. Build the result. It is either no discount, or one `productDiscountsAdd`
   operation with one candidate. That candidate targets every eligible line, in
   cart order, with the configured percentage, the message
   `Buy {minQty}+, get {percentOff}% off` and selection strategy `First`.

Modules, one per concern:

- `Wrappers`: `Option` and `Result`.
- `CartInput`: the cart snapshot (shop, metafield, lines, merchandise).
- `Config`: the outcomes of `JSON.parse`, the validated `Rule`, and validation.
- `Eligibility`: the eligibility test, the scan as a loop (`ScanLines`) and as a
  reference function (`Collect`), and the lemmas that characterise the targets.
- `RunResult`: the output shape, the message, and a reader for the message.
- `Decimal`: integer-to-decimal text, with the parser that proves it exact.
- `DiscountRun`: the whole function, the code as written, and scenarios.

`JSON.parse` is a library call whose implementation is not visible. It is a
parameter `parse: string -> ParseOutcome` of the function. Its possible
outcomes are a syntax error, `null`, or a JSON value with the three properties
each present or absent. A JSON value that is not an object has none of the
properties.

Where the code is stricter than a plain reading of its intent, the model
follows the code. A product variant whose product id is the empty string is
skipped, because the code tests the id for falsiness. A non-zero negative
`minQty` is kept as it is and printed with its sign in the message.

## Model

| member | source | states |
|---|---|---|
| `Config.EffectiveMinQty` | extensions/discount-function/src/cart_lines_discounts_generate_run.ts:42 | the effective minimum is never 0; it is the configured value when that is non-zero, and 2 when it is absent or 0 |
| `Config.PercentOffRejected` | extensions/discount-function/src/cart_lines_discounts_generate_run.ts:43-48 | the three falsy/below/above tests together reject exactly the percentages outside [1, 80], including an absent one |
| `Config.Validate` | extensions/discount-function/src/cart_lines_discounts_generate_run.ts:21-48 | absent or empty value gives MissingConfiguration; a parse failure gives MalformedConfiguration; bad products give EmptyProducts; then a bad percentage gives InvalidPercentOff; otherwise the rule carries the configured products and percentage and the defaulted minimum; every accepted rule has products, a non-zero minimum and a percentage in [1, 80] |
| `Eligibility.EligibleExactly` | extensions/discount-function/src/cart_lines_discounts_generate_run.ts:55-69 | a line is eligible exactly when it holds a product variant of some configured, non-empty product id and its quantity is at least the minimum |
| `Eligibility.Collect` | extensions/discount-function/src/cart_lines_discounts_generate_run.ts:50-76 | the scan yields one target per eligible position of the cart |
| `Eligibility.EligibleIndices` | extensions/discount-function/src/cart_lines_discounts_generate_run.ts:53-76 | the eligible positions are strictly increasing, each is an eligible line, and every eligible line's position is among them |
| `Eligibility.CollectFollowsIndices` | extensions/discount-function/src/cart_lines_discounts_generate_run.ts:50-76 | the k-th collected target is the id of the k-th eligible line, and there is one target per eligible line, so targets keep cart order and each line contributes at most once |
| `Eligibility.CollectMembership` | extensions/discount-function/src/cart_lines_discounts_generate_run.ts:53-76 | a target is collected if and only if some eligible line has that id |
| `Eligibility.OtherMerchandiseNeverEligible` | extensions/discount-function/src/cart_lines_discounts_generate_run.ts:54-57 | no eligible position, and so no target, is a line whose merchandise is not a product variant, whatever its quantity |
| `Eligibility.OtherMerchandiseNeverTargeted` | extensions/discount-function/src/cart_lines_discounts_generate_run.ts:54-57 | the id of a line that is not a product variant is never among the targets, when line ids are unique |
| `Eligibility.CollectAppend` | extensions/discount-function/src/cart_lines_discounts_generate_run.ts:53-76 | scanning two runs of lines one after the other gives the first run's targets followed by the second's |
| `Eligibility.QuantityBoundary` | extensions/discount-function/src/cart_lines_discounts_generate_run.ts:69 | a line holding a configured product variant, at any position of any cart, is eligible exactly when its quantity is at least the minimum; the boundary is inclusive |
| `Eligibility.ScanLines` | extensions/discount-function/src/cart_lines_discounts_generate_run.ts:50-76 | the loop over the lines pushes exactly the targets of the reference scan `Collect` |
| `Decimal.NatToString` | extensions/discount-function/src/cart_lines_discounts_generate_run.ts:95 | the printed natural number is a non-empty run of digits with no leading zero, and is "0" only for zero |
| `Decimal.IntToString` | extensions/discount-function/src/cart_lines_discounts_generate_run.ts:95 | the printed integer is digits, preceded by '-' exactly when it is negative |
| `Decimal.ParseIntOfIntToString` | extensions/discount-function/src/cart_lines_discounts_generate_run.ts:95 | reading the printed text of an integer gives the integer back |
| `Decimal.IntToStringOfParseInt` | extensions/discount-function/src/cart_lines_discounts_generate_run.ts:95 | any text that reads as an integer is exactly that integer's printed text |
| `RunResult.Message` | extensions/discount-function/src/cart_lines_discounts_generate_run.ts:95 | the message `Buy {minQty}+, get {percentOff}% off` reads back as exactly its two numbers |
| `RunResult.ParseMessageExact` | extensions/discount-function/src/cart_lines_discounts_generate_run.ts:95 | a text that reads as two numbers is exactly the message for those numbers |
| `RunResult.MessageInjective` | extensions/discount-function/src/cart_lines_discounts_generate_run.ts:95 | two rules with different minimum or percentage never share a message |
| `DiscountRun.BuildResult` | extensions/discount-function/src/cart_lines_discounts_generate_run.ts:78-102 | no targets give no discount; otherwise exactly one operation with exactly one candidate carrying all targets, the percentage, the message, and strategy First |
| `DiscountRun.Evaluate` | extensions/discount-function/src/cart_lines_discounts_generate_run.ts:17-102 | the result is always no discount or one well-formed operation with a percentage in [1, 80]; a missing, empty or unparsable value, bad products or a bad percentage give no discount whatever the cart; a discount's percentage is the configured one |
| `DiscountRun.EvaluateWithRule` | extensions/discount-function/src/cart_lines_discounts_generate_run.ts:50-102 | under a valid rule the result is no discount exactly when no line is eligible, and otherwise the single candidate targets the scanned lines with the rule's percentage and message, strategy First |
| `DiscountRun.EvaluateTargets` | extensions/discount-function/src/cart_lines_discounts_generate_run.ts:53-89 | a target appears in the candidate exactly when some eligible line has that id |
| `DiscountRun.EvaluateAsWritten` | extensions/discount-function/src/cart_lines_discounts_generate_run.ts:28-40 | the code as written throws exactly when the configuration value parses to `null`, and otherwise returns a well-formed result |
| `DiscountRun.NullConfigThrowsAsWritten` | extensions/discount-function/src/cart_lines_discounts_generate_run.ts:29-37 | the configuration value `null` makes the code as written throw |
| `DiscountRun.NullConfigYieldsNoDiscount` | extensions/discount-function/src/cart_lines_discounts_generate_run.ts:28-40 | in the corrected model a configuration that parses to `null` yields no discount |
| `DiscountRun.AsWrittenAgreesElsewhere` | extensions/discount-function/src/cart_lines_discounts_generate_run.ts:17-102 | on every other input the code as written returns exactly the corrected model's result |
| `DiscountRun.ScenarioEnoughUnits` | extensions/discount-function/src/cart_lines_discounts_generate_run.ts:17-102 | `{products:["gid://P1"], minQty:2, percentOff:15}` with 3 units of P1 on line L1 targets L1 at 15% with "Buy 2+, get 15% off" |
| `DiscountRun.ScenarioTooFewUnits` | extensions/discount-function/src/cart_lines_discounts_generate_run.ts:17-102 | the same rule with 1 unit of P1 gives no discount |
| `DiscountRun.ScenarioPercentTooHigh` | extensions/discount-function/src/cart_lines_discounts_generate_run.ts:43-48 | a percentage of 90 gives no discount for every cart |
| `DiscountRun.ScenarioTwoLines` | extensions/discount-function/src/cart_lines_discounts_generate_run.ts:17-102 | two qualifying lines of different configured products give one candidate targeting both, in cart order |

## Left out

- `JSON.parse` is a parameter. Only its outcome is modelled: a syntax error, `null`, or a value with each property present or absent.
- `console.error` diagnostics are left out. They do not affect control flow; the reason a configuration is rejected survives only as a `ConfigError` value.
- Non-integer JSON values for `minQty` and `percentOff` are left out: fractions, `NaN`, strings, booleans, and JavaScript's coercions of them. Absence is `None`.
- Non-string entries of the `products` array are left out. `includes` compares strictly, so such an entry could never match a product id anyway.
- `Decimal.IntToString`: prints every integer in plain decimal. JavaScript prints numbers of magnitude 1e21 or more in exponent form, and integers beyond 2^53 lose precision; neither is modelled.
- Merchandise kinds other than `ProductVariant` are collapsed into one `Other` variant, because the code only tests for `ProductVariant`.
- The generated API types are modelled only as far as the result shape: operations, candidates, targets, percentage value, message and selection strategy.
- `Eligibility.OtherMerchandiseNeverTargeted`: the statement about ids assumes that line ids are unique within a cart, since another eligible line with the same id would put that id in the targets; `Eligibility.OtherMerchandiseNeverEligible` states the property about lines without that assumption.
- app/routes/app._index.tsx is not part of this model. Its loader and action read and write the metafield and create or delete the automatic discount through the Admin API, and its component is UI state; its 1–80 check repeats the function's own.
- Referential transparency needs no lemma: every member is a pure function of its arguments.

## Findings

| source | as written | input that shows it | evidently intended | confidence | as-written member | corrected member |
|---|---|---|---|---|---|---|
| extensions/discount-function/src/cart_lines_discounts_generate_run.ts:37 | `config.products` is read on whatever `JSON.parse` returned, outside the `try`; when the value parses to `null` this throws a TypeError out of the function | metafield value `null` (a non-empty string that is valid JSON) | no discount, as for every other unusable configuration | medium, not executed | `DiscountRun.EvaluateAsWritten`, exhibited by `DiscountRun.NullConfigThrowsAsWritten` | `DiscountRun.Evaluate`, proved by `DiscountRun.NullConfigYieldsNoDiscount` and `DiscountRun.AsWrittenAgreesElsewhere` |
