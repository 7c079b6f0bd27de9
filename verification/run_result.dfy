/**
  The discount operations the function returns to the checkout engine, and the
  fixed-format message each candidate carries.
 */
module RunResult {
  import opened Wrappers
  import opened Decimal

  /** How the engine chooses among candidates that apply to the same line. */
  datatype SelectionStrategy = First | All | Maximum

  datatype Target = CartLineTarget(id: string)

  datatype DiscountValue = Percentage(value: int)

  datatype Candidate = Candidate(targets: seq<Target>, value: DiscountValue, message: string)

  datatype Operation = ProductDiscountsAdd(candidates: seq<Candidate>, selectionStrategy: SelectionStrategy)

  datatype RunResult = RunResult(operations: seq<Operation>)

  /** The result that applies no discount. */
  const NoDiscount: RunResult := RunResult([])

  /**
    The candidate's message, "Buy {minQty}+, get {percentOff}% off" with both
    numbers in decimal. It carries both numbers exactly: reading it gives them back.
   */
  function Message(minQty: int, percentOff: int): (m: string)
    ensures ParseMessage(m) == Some((minQty, percentOff))
  {
    ParseMessageOfText(minQty, percentOff);
    "Buy " + IntToString(minQty) + "+, get " + IntToString(percentOff) + "% off"
  }

  /** Splits `s` at the first occurrence of `c`. */
  function SplitAt(s: string, c: char): (r: Option<(string, string)>)
    ensures r.Some? ==> s == r.value.0 + [c] + r.value.1 && c !in r.value.0
    ensures r.None? ==> c !in s
  {
    if |s| == 0 then None
    else if s[0] == c then Some(([], s[1..]))
    else
      match SplitAt(s[1..], c)
      case None => None
      case Some((a, b)) => Some(([s[0]] + a, b))
  }

  /** Reads the two numbers back out of a message. */
  function ParseMessage(m: string): Option<(int, int)> {
    if |m| < 4 || m[..4] != "Buy " then None
    else
      match SplitAt(m[4..], '+')
      case None => None
      case Some((q, rest)) =>
        if |rest| < 6 || rest[..6] != ", get " then None
        else
          match SplitAt(rest[6..], '%')
          case None => None
          case Some((p, tail)) =>
            if tail != " off" then None
            else
              match (ParseInt(q), ParseInt(p))
              case (Some(a), Some(b)) => Some((a, b))
              case _ => None
  }

  lemma {:induction false} SplitAtFirst(a: string, b: string, c: char)
    requires c !in a
    ensures SplitAt(a + [c] + b, c) == Some((a, b))
    decreases |a|
  {
    var s := a + [c] + b;
    if |a| == 0 {
      assert s[0] == c && s[1..] == b;
    } else {
      assert s[0] == a[0] != c;
      assert s[1..] == a[1..] + [c] + b;
      SplitAtFirst(a[1..], b, c);
      assert [a[0]] + a[1..] == a;
    }
  }

  /** Reading the message text gives back the two numbers printed into it. */
  lemma ParseMessageOfText(minQty: int, percentOff: int)
    ensures ParseMessage("Buy " + IntToString(minQty) + "+, get " + IntToString(percentOff) + "% off")
      == Some((minQty, percentOff))
  {
    var q := IntToString(minQty);
    var p := IntToString(percentOff);
    var m := "Buy " + q + "+, get " + p + "% off";
    assert m[..4] == "Buy ";
    assert m[4..] == q + ['+'] + (", get " + p + "% off");
    SplitAtFirst(q, ", get " + p + "% off", '+');
    var rest := ", get " + p + "% off";
    assert rest[..6] == ", get ";
    assert rest[6..] == p + ['%'] + " off";
    SplitAtFirst(p, " off", '%');
    ParseIntOfIntToString(minQty);
    ParseIntOfIntToString(percentOff);
  }

  /** Only the message of two numbers reads back as those numbers. */
  lemma ParseMessageExact(m: string, minQty: int, percentOff: int)
    requires ParseMessage(m) == Some((minQty, percentOff))
    ensures m == Message(minQty, percentOff)
  {
    assert |m| >= 4 && m[..4] == "Buy ";
    var sq := SplitAt(m[4..], '+');
    assert sq.Some?;
    var q, rest := sq.value.0, sq.value.1;
    assert |rest| >= 6 && rest[..6] == ", get ";
    var sp := SplitAt(rest[6..], '%');
    assert sp.Some?;
    var p, tail := sp.value.0, sp.value.1;
    assert tail == " off";
    assert ParseInt(q) == Some(minQty) && ParseInt(p) == Some(percentOff);
    IntToStringOfParseInt(q, minQty);
    IntToStringOfParseInt(p, percentOff);
    calc {
      m;
      m[..4] + m[4..];
      "Buy " + (q + "+" + rest);
      { assert rest == rest[..6] + rest[6..]; }
      "Buy " + (q + "+" + (", get " + (p + "%" + tail)));
      "Buy " + q + "+, get " + p + "% off";
    }
  }

  /** Distinct configurations never share a message. */
  lemma MessageInjective(q1: int, p1: int, q2: int, p2: int)
    requires Message(q1, p1) == Message(q2, p2)
    ensures q1 == q2 && p1 == p2
  {
  }
}
