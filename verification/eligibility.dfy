/**
  The scan over the cart: which lines qualify for the discount, and the targets
  they become, in cart order.
 */
module Eligibility {
  import opened Wrappers
  import opened CartInput
  import opened Config
  import opened RunResult

  /**
    A line qualifies when it is a product variant whose product id is present
    and non-empty (the empty string is falsy), that id is one of the rule's
    products, and its quantity reaches the minimum (inclusively).
   */
  predicate Eligible(line: CartLine, rule: Rule)
  {
    match line.merchandise
    case Other => false
    case ProductVariant(productId) =>
      productId.Some? && productId.value != "" && productId.value in rule.products
      && line.quantity >= rule.minQty
  }

  /**
    Eligibility without the case analysis: the line holds a product variant of
    some configured, non-empty product id, in at least the minimum quantity.
   */
  lemma EligibleExactly(line: CartLine, rule: Rule)
    ensures Eligible(line, rule) <==>
      exists p :: p in rule.products && p != "" && line.merchandise == ProductVariant(Some(p))
        && line.quantity >= rule.minQty
  {
  }

  /** The targets of the eligible lines of `lines`, in order. */
  function Collect(lines: seq<CartLine>, rule: Rule): (targets: seq<Target>)
    ensures |targets| == |EligibleIndices(lines, rule)|
  {
    if |lines| == 0 then []
    else
      var init := Collect(lines[..|lines| - 1], rule);
      var last := lines[|lines| - 1];
      if Eligible(last, rule) then init + [CartLineTarget(last.id)] else init
  }

  /** The positions of the eligible lines of `lines`: increasing, and all of them. */
  function EligibleIndices(lines: seq<CartLine>, rule: Rule): (ix: seq<nat>)
    ensures forall k :: 0 <= k < |ix| ==> ix[k] < |lines| && Eligible(lines[ix[k]], rule)
    ensures forall k, l :: 0 <= k < l < |ix| ==> ix[k] < ix[l]
    ensures forall i :: 0 <= i < |lines| && Eligible(lines[i], rule) ==> i in ix
  {
    if |lines| == 0 then []
    else
      var init := EligibleIndices(lines[..|lines| - 1], rule);
      if Eligible(lines[|lines| - 1], rule) then init + [|lines| - 1] else init
  }

  /**
    The targets are exactly the ids of the eligible lines, in cart order, one
    per line: the k-th target is the line at the k-th eligible position.
   */
  lemma {:induction false} CollectFollowsIndices(lines: seq<CartLine>, rule: Rule)
    ensures |Collect(lines, rule)| == |EligibleIndices(lines, rule)|
    ensures forall k :: 0 <= k < |Collect(lines, rule)| ==>
      Collect(lines, rule)[k] == CartLineTarget(lines[EligibleIndices(lines, rule)[k]].id)
    decreases |lines|
  {
    if |lines| > 0 {
      var init := lines[..|lines| - 1];
      CollectFollowsIndices(init, rule);
      var ts, ix := Collect(init, rule), EligibleIndices(init, rule);
      forall k | 0 <= k < |ts|
        ensures lines[ix[k]] == init[ix[k]]
      {
      }
    }
  }

  /** A target is present exactly when some eligible line has its id. */
  lemma CollectMembership(lines: seq<CartLine>, rule: Rule, t: Target)
    ensures t in Collect(lines, rule) <==>
      exists i :: 0 <= i < |lines| && Eligible(lines[i], rule) && t == CartLineTarget(lines[i].id)
  {
    CollectFollowsIndices(lines, rule);
    var ts, ix := Collect(lines, rule), EligibleIndices(lines, rule);
    if t in ts {
      var k :| 0 <= k < |ts| && ts[k] == t;
      assert Eligible(lines[ix[k]], rule) && t == CartLineTarget(lines[ix[k]].id);
    }
    if exists i :: 0 <= i < |lines| && Eligible(lines[i], rule) && t == CartLineTarget(lines[i].id) {
      var i :| 0 <= i < |lines| && Eligible(lines[i], rule) && t == CartLineTarget(lines[i].id);
      var k :| 0 <= k < |ix| && ix[k] == i;
      assert ts[k] == t;
    }
  }

  /** No target comes from a line that is not a product variant, whatever its quantity. */
  lemma OtherMerchandiseNeverEligible(lines: seq<CartLine>, rule: Rule)
    ensures forall k :: 0 <= k < |EligibleIndices(lines, rule)| ==>
      lines[EligibleIndices(lines, rule)[k]].merchandise != Other
  {
  }

  /** With line ids unique within a cart, as the checkout engine supplies them,
      the id of a line that is not a product variant is never among the targets. */
  lemma OtherMerchandiseNeverTargeted(lines: seq<CartLine>, rule: Rule, i: nat)
    requires i < |lines| && lines[i].merchandise == Other
    requires forall j, k :: 0 <= j < k < |lines| ==> lines[j].id != lines[k].id
    ensures CartLineTarget(lines[i].id) !in Collect(lines, rule)
  {
    CollectMembership(lines, rule, CartLineTarget(lines[i].id));
  }

  /** Scanning a concatenation of carts targets the first cart's lines, then the second's. */
  lemma {:induction false} CollectAppend(a: seq<CartLine>, b: seq<CartLine>, rule: Rule)
    ensures Collect(a + b, rule) == Collect(a, rule) + Collect(b, rule)
    decreases |b|
  {
    if |b| == 0 {
      assert a + b == a;
    } else {
      var b' := b[..|b| - 1];
      assert (a + b)[..|a + b| - 1] == a + b';
      CollectAppend(a, b', rule);
    }
  }

  /**
    The quantity threshold is inclusive: a line holding a configured product
    variant is eligible, wherever it sits in the cart, exactly when its quantity
    is at least the minimum.
   */
  lemma QuantityBoundary(lines: seq<CartLine>, rule: Rule, i: nat, productId: string)
    requires i < |lines| && lines[i].merchandise == ProductVariant(Some(productId))
    requires productId != "" && productId in rule.products
    ensures i in EligibleIndices(lines, rule) <==> lines[i].quantity >= rule.minQty
  {
    if i in EligibleIndices(lines, rule) {
      var k :| 0 <= k < |EligibleIndices(lines, rule)| && EligibleIndices(lines, rule)[k] == i;
    }
  }

  /** The loop over the cart lines, pushing a target for each eligible line. */
  method ScanLines(lines: seq<CartLine>, rule: Rule) returns (targets: seq<Target>)
    ensures targets == Collect(lines, rule)
  {
    targets := [];
    var i := 0;
    while i < |lines|
      invariant 0 <= i <= |lines|
      invariant targets == Collect(lines[..i], rule)
    {
      var line := lines[i];
      assert lines[..i + 1][..i] == lines[..i];
      match line.merchandise {
        case Other =>
        case ProductVariant(productId) =>
          if productId.Some? && productId.value != "" {
            var isConfiguredProduct := productId.value in rule.products;
            if isConfiguredProduct && line.quantity >= rule.minQty {
              targets := targets + [CartLineTarget(line.id)];
            }
          }
      }
      i := i + 1;
    }
    assert lines[..i] == lines;
  }
}
