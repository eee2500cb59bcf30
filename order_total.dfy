/** recalc(): the ordered lines and the running total of the order form. */
module OrderTotal {
  import opened JsText
  import opened OrderForm

  /** CONFIG.pricing: the unit price of a main item and of a side item. */
  datatype Pricing = Pricing(main: int, side: int)

  /** The prices the shop configures. */
  const ConfiguredPricing := Pricing(20, 10)

  /** One ordered line: {name, qty, price, subtotal}. */
  datatype Item = Item(name: string, qty: int, price: int, subtotal: int)

  /** parseInt(q.value || '0', 10): an empty input reads as 0. */
  function LineReading(value: string): Option<int>
  {
    ParseInt(if value == "" then "0" else value, Ten)
  }

  /** An input is ordered when it reads as a number greater than 0. */
  predicate IsOrdered(f: QtyField)
  {
    var n := LineReading(f.value);
    n.Some? && n.value > 0
  }

  /** Main items cost pricing.main; every other kind costs pricing.side. */
  function UnitPrice(kind: string, pricing: Pricing): int
  {
    if kind == "main" then pricing.main else pricing.side
  }

  /** The line recalc pushes for an ordered input. */
  function LineOf(f: QtyField, pricing: Pricing): (it: Item)
    requires IsOrdered(f)
  {
    var n := LineReading(f.value).value;
    var price := UnitPrice(f.kind, pricing);
    Item(f.name, n, price, n * price)
  }

  /** A line as recalc builds it: a positive quantity, the price of its kind
      and subtotal = quantity * price. */
  predicate WellFormed(it: Item, pricing: Pricing)
  {
    it.qty > 0 && (it.price == pricing.main || it.price == pricing.side) &&
    it.subtotal == it.qty * it.price
  }

  /** The lines of the ordered inputs, in document order. */
  function Items(fields: seq<QtyField>, pricing: Pricing): (items: seq<Item>)
    ensures |items| <= |fields|
    ensures forall k :: 0 <= k < |items| ==> WellFormed(items[k], pricing)
    decreases |fields|
  {
    if |fields| == 0 then []
    else
      var last := fields[|fields| - 1];
      Items(fields[..|fields| - 1], pricing) +
        (if IsOrdered(last) then [LineOf(last, pricing)] else [])
  }

  /** The sum of the subtotals. */
  function Sum(items: seq<Item>): int
  {
    if |items| == 0 then 0 else Sum(items[..|items| - 1]) + items[|items| - 1].subtotal
  }

  /** recalc(): walks the quantity inputs once, pushing a line for each ordered
      one and adding its subtotal to the total. */
  method Recalc(fields: seq<QtyField>, pricing: Pricing) returns (items: seq<Item>, total: int)
    ensures items == Items(fields, pricing)
    ensures total == Sum(items)
  {
    items := [];
    total := 0;
    var i := 0;
    while i < |fields|
      invariant 0 <= i <= |fields|
      invariant items == Items(fields[..i], pricing)
      invariant total == Sum(items)
    {
      var q := fields[i];
      ItemsStep(fields, i, pricing);
      var n := LineReading(q.value);
      if n.Some? && n.value > 0 {
        var price := if q.kind == "main" then pricing.main else pricing.side;
        var line := Item(q.name, n.value, price, n.value * price);
        SumStep(items, line);
        total := total + n.value * price;
        items := items + [line];
      }
      i := i + 1;
    }
    assert fields[..|fields|] == fields;
  }

  /** The lines of the first i + 1 inputs. */
  lemma ItemsStep(fields: seq<QtyField>, i: nat, pricing: Pricing)
    requires i < |fields|
    ensures Items(fields[..i + 1], pricing) ==
      Items(fields[..i], pricing) + (if IsOrdered(fields[i]) then [LineOf(fields[i], pricing)] else [])
  {
    assert fields[..i + 1][..i] == fields[..i];
  }

  /** The total after one more line. */
  lemma SumStep(items: seq<Item>, line: Item)
    ensures Sum(items + [line]) == Sum(items) + line.subtotal
  {
    assert (items + [line])[..|items|] == items;
  }

  /** The lines of two runs of inputs are the lines of the first run followed
      by those of the second. */
  lemma {:induction false} ItemsAppend(a: seq<QtyField>, b: seq<QtyField>, pricing: Pricing)
    ensures Items(a + b, pricing) == Items(a, pricing) + Items(b, pricing)
    decreases |b|
  {
    if |b| == 0 {
      assert a + b == a;
    } else {
      var init := b[..|b| - 1];
      assert (a + b)[..|a + b| - 1] == a + init;
      ItemsAppend(a, init, pricing);
    }
  }

  /** The total of two runs of lines is the sum of their totals. */
  lemma {:induction false} SumAppend(a: seq<Item>, b: seq<Item>)
    ensures Sum(a + b) == Sum(a) + Sum(b)
    decreases |b|
  {
    if |b| == 0 {
      assert a + b == a;
    } else {
      assert (a + b)[..|a + b| - 1] == a + b[..|b| - 1];
      SumAppend(a, b[..|b| - 1]);
    }
  }

  /** A line is in the order exactly when it is the line of an ordered input. */
  lemma {:induction false} ItemsMembers(fields: seq<QtyField>, pricing: Pricing, it: Item)
    ensures it in Items(fields, pricing) <==>
      exists k :: 0 <= k < |fields| && IsOrdered(fields[k]) && it == LineOf(fields[k], pricing)
    decreases |fields|
  {
    if |fields| > 0 {
      var init := fields[..|fields| - 1];
      ItemsMembers(init, pricing, it);
      if exists k :: 0 <= k < |init| && IsOrdered(init[k]) && it == LineOf(init[k], pricing) {
        var k :| 0 <= k < |init| && IsOrdered(init[k]) && it == LineOf(init[k], pricing);
        assert fields[k] == init[k];
      }
      if exists k :: 0 <= k < |fields| && IsOrdered(fields[k]) && it == LineOf(fields[k], pricing) {
        var k :| 0 <= k < |fields| && IsOrdered(fields[k]) && it == LineOf(fields[k], pricing);
        if k < |init| {
          assert init[k] == fields[k];
        }
      }
    }
  }

  /** Every line of the order carries the name of an input, the number
      parseInt reads from that input (above 0), the main price when the
      input's kind is "main" and the side price otherwise, and
      subtotal = quantity * price. */
  lemma ItemsFields(fields: seq<QtyField>, pricing: Pricing, it: Item)
    requires it in Items(fields, pricing)
    ensures exists k ::
      && 0 <= k < |fields| && it.name == fields[k].name
      && LineReading(fields[k].value) == Some(it.qty) && it.qty > 0
      && it.price == (if fields[k].kind == "main" then pricing.main else pricing.side)
      && it.subtotal == it.qty * it.price
  {
    ItemsMembers(fields, pricing, it);
    var k :| 0 <= k < |fields| && IsOrdered(fields[k]) && it == LineOf(fields[k], pricing);
    assert it.name == fields[k].name && LineReading(fields[k].value) == Some(it.qty);
  }

  /** There are no lines exactly when no input is ordered (every input left
      empty, at "0" or without leading digits). */
  lemma {:induction false} ItemsEmpty(fields: seq<QtyField>, pricing: Pricing)
    ensures Items(fields, pricing) == [] <==> forall k :: 0 <= k < |fields| ==> !IsOrdered(fields[k])
    decreases |fields|
  {
    if |fields| > 0 {
      var init := fields[..|fields| - 1];
      var last := fields[|fields| - 1];
      ItemsEmpty(init, pricing);
      if forall k :: 0 <= k < |fields| ==> !IsOrdered(fields[k]) {
        assert forall k :: 0 <= k < |init| ==> init[k] == fields[k];
        assert !IsOrdered(last);
      } else {
        var k :| 0 <= k < |fields| && IsOrdered(fields[k]);
        if k < |init| {
          assert init[k] == fields[k];
          assert Items(init, pricing) != [];
        }
        assert |Items(fields, pricing)| >= |Items(init, pricing)|;
      }
    }
  }

  /** With no ordered input the total is 0. */
  lemma NothingOrderedTotalZero(fields: seq<QtyField>, pricing: Pricing)
    requires forall k :: 0 <= k < |fields| ==> !IsOrdered(fields[k])
    ensures Sum(Items(fields, pricing)) == 0
  {
    ItemsEmpty(fields, pricing);
  }

  /** A quantity above 0 times a price at least (above) 0 is at least
      (above) 0. */
  lemma SubtotalSign(qty: int, price: int)
    requires qty > 0
    ensures price >= 0 ==> qty * price >= 0
    ensures price > 0 ==> qty * price > 0
  {
  }

  /** The total of well-formed lines is at least 0 when no price is negative,
      and above 0 exactly when there is a line, when both prices are above 0. */
  lemma {:induction false} SumSign(items: seq<Item>, pricing: Pricing)
    requires forall k :: 0 <= k < |items| ==> WellFormed(items[k], pricing)
    ensures pricing.main >= 0 && pricing.side >= 0 ==> Sum(items) >= 0
    ensures pricing.main > 0 && pricing.side > 0 ==> (Sum(items) > 0 <==> |items| > 0)
    decreases |items|
  {
    if |items| > 0 {
      var last := items[|items| - 1];
      SumSign(items[..|items| - 1], pricing);
      SubtotalSign(last.qty, last.price);
    }
  }

  /** recalc's total is never negative under prices that are not negative; with
      both prices above 0 it is above 0 exactly when some input is ordered. */
  lemma TotalSign(fields: seq<QtyField>, pricing: Pricing)
    ensures pricing.main >= 0 && pricing.side >= 0 ==> Sum(Items(fields, pricing)) >= 0
    ensures pricing.main > 0 && pricing.side > 0 ==>
      (Sum(Items(fields, pricing)) > 0 <==> exists k :: 0 <= k < |fields| && IsOrdered(fields[k]))
  {
    SumSign(Items(fields, pricing), pricing);
    ItemsEmpty(fields, pricing);
  }
}
