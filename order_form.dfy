/** The quantity inputs of the order form and the +/- stepper buttons beside
    each of them. */
module OrderForm {
  import opened JsText

  /** One quantity input (class "qty"): its data-name, its data-type ("main" or
      "side") and the text of its value. */
  datatype QtyField = QtyField(name: string, kind: string, value: string)

  /** The largest quantity the stepper counts up to. */
  const MaxQty := 99

  /** parseInt(input.value) || 0: the stepper reads a value without leading
      digits (NaN) as 0. */
  function StepperReading(value: string): int
  {
    match ParseInt(value, Unspecified)
    case None => 0
    case Some(n) => n
  }

  /** The quantity after one press of a stepper button: "increase" counts up
      below MaxQty, "decrease" counts down above 0, anything else keeps it. */
  function Step(action: string, v: int): (r: int)
    ensures 0 <= v <= MaxQty ==> 0 <= r <= MaxQty
    ensures (if v < 0 then v else 0) <= r <= (if v > MaxQty then v else MaxQty)
    ensures r == v || r == v + 1 || r == v - 1
    ensures r == v + 1 <==> action == "increase" && v < MaxQty
    ensures r == v - 1 <==> action == "decrease" && v > 0
  {
    if action == "increase" && v < MaxQty then v + 1
    else if action == "decrease" && v > 0 then v - 1
    else v
  }

  /** document.querySelector(`input[data-name="${target}"]`): the first input
      with that name in document order, or None when there is none. */
  function FindField(fields: seq<QtyField>, target: string): (r: Option<nat>)
    ensures r.Some? ==> r.value < |fields| && fields[r.value].name == target
    ensures r.Some? ==> forall k :: 0 <= k < r.value ==> fields[k].name != target
    ensures r.None? ==> forall k :: 0 <= k < |fields| ==> fields[k].name != target
  {
    if |fields| == 0 then None
    else if fields[0].name == target then Some(0)
    else match FindField(fields[1..], target)
      case None => None
      case Some(i) => Some(i + 1)
  }

  /** The inputs after a click on the stepper button with the given action and
      target: the first input of that name now holds String(Step(...)) of what
      it read; no input changes when none has that name. */
  function Clicked(fields: seq<QtyField>, action: string, target: string): (r: seq<QtyField>)
    ensures |r| == |fields|
    ensures forall k :: 0 <= k < |r| ==> r[k].name == fields[k].name && r[k].kind == fields[k].kind
  {
    match FindField(fields, target)
    case None => fields
    case Some(i) =>
      fields[i := fields[i].(value := IntToString(Step(action, StepperReading(fields[i].value))))]
  }

  /** A click touches only the input it targets; that input then holds a
      number within [0, MaxQty] whenever it held one there or held no number. */
  lemma ClickChangesOnlyTarget(fields: seq<QtyField>, action: string, target: string)
    ensures var r := Clicked(fields, action, target);
      forall k :: 0 <= k < |fields| && fields[k].name != target ==> r[k] == fields[k]
    ensures var r := Clicked(fields, action, target);
      forall k :: 0 <= k < |fields| && FindField(fields, target) == Some(k) ==>
        var before := StepperReading(fields[k].value);
        (0 <= before <= MaxQty ==> 0 <= StepperReading(r[k].value) <= MaxQty)
  {
    var r := Clicked(fields, action, target);
    match FindField(fields, target)
    case None =>
    case Some(i) =>
      ParseIntToString(Step(action, StepperReading(fields[i].value)), Unspecified);
  }

  /** A click on an input that the stepper reads as v writes String(Step(action, v))
      into it, and the next lookup by the same name finds the same input. */
  lemma ClickOnce(fields: seq<QtyField>, action: string, target: string, v: int)
    requires var i := FindField(fields, target); i.Some? && StepperReading(fields[i.value].value) == v
    ensures var i := FindField(fields, target).value; var r := Clicked(fields, action, target);
      && r == fields[i := fields[i].(value := IntToString(Step(action, v)))]
      && FindField(r, target) == FindField(fields, target)
  {
    SameNamesSameFind(fields, Clicked(fields, action, target), target);
  }

  /** The stepper reads a blank input as 0: "+" writes "1" into it and "-"
      writes "0". */
  lemma ClickBlank(fields: seq<QtyField>, target: string)
    requires var i := FindField(fields, target); i.Some? && fields[i.value].value == ""
    ensures var i := FindField(fields, target).value;
      && Clicked(fields, "increase", target) == fields[i := fields[i].(value := "1")]
      && Clicked(fields, "decrease", target) == fields[i := fields[i].(value := "0")]
  {
    ParseEmpty(Unspecified);
    ClickOnce(fields, "increase", target, 0);
    ClickOnce(fields, "decrease", target, 0);
  }

  /** Of two writes into the same input the later one is what remains; writing
      back the value the input had restores the inputs. */
  lemma WriteBack(fields: seq<QtyField>, i: nat, other: string, last: string)
    requires i < |fields|
    ensures var once := fields[i := fields[i].(value := other)];
      once[i := once[i].(value := last)] == fields[i := fields[i].(value := last)]
    ensures last == fields[i].value ==> fields[i := fields[i].(value := last)] == fields
  {
  }

  /** Two clicks whose steps cancel, on an input the stepper reads as v, leave
      String(v) in it and every other input as it was; an input that held
      String(v) is given back as it was. */
  lemma ClickPairCancels(fields: seq<QtyField>, first: string, second: string, target: string, v: int)
    requires var i := FindField(fields, target); i.Some? && StepperReading(fields[i.value].value) == v
    requires Step(second, Step(first, v)) == v
    ensures var i := FindField(fields, target).value;
      Clicked(Clicked(fields, first, target), second, target) == fields[i := fields[i].(value := IntToString(v))]
    ensures var i := FindField(fields, target).value;
      fields[i].value == IntToString(v) ==> Clicked(Clicked(fields, first, target), second, target) == fields
  {
    var i := FindField(fields, target).value;
    var w := Step(first, v);
    var once := Clicked(fields, first, target);
    ClickOnce(fields, first, target, v);
    assert once[i].value == IntToString(w);
    ParseIntToString(w, Unspecified);
    ClickOnce(once, second, target, w);
    WriteBack(fields, i, IntToString(w), IntToString(v));
  }

  /** From a quantity v in [0, MaxQty - 1], "+" then "-" on the same input gives
      back the inputs as they were, and so does "-" then "+" from v in
      [1, MaxQty]. */
  lemma ClickUndo(fields: seq<QtyField>, target: string, v: int)
    requires var i := FindField(fields, target); i.Some? && fields[i.value].value == IntToString(v)
    ensures 0 <= v < MaxQty ==> Clicked(Clicked(fields, "increase", target), "decrease", target) == fields
    ensures 0 < v <= MaxQty ==> Clicked(Clicked(fields, "decrease", target), "increase", target) == fields
  {
    ParseIntToString(v, Unspecified);
    if 0 <= v < MaxQty {
      ClickPairCancels(fields, "increase", "decrease", target, v);
    }
    if 0 < v <= MaxQty {
      ClickPairCancels(fields, "decrease", "increase", target, v);
    }
  }

  /** The lookup by name sees only the names. */
  lemma {:induction false} SameNamesSameFind(a: seq<QtyField>, b: seq<QtyField>, target: string)
    requires |a| == |b|
    requires forall k :: 0 <= k < |a| ==> a[k].name == b[k].name
    ensures FindField(a, target) == FindField(b, target)
  {
    if |a| > 0 && a[0].name != target {
      SameNamesSameFind(a[1..], b[1..], target);
    }
  }

  /** The quantity inputs of the page, in document order; the stepper buttons
      update them in place. */
  class Quantities {
    var fields: seq<QtyField>

    constructor (fields: seq<QtyField>)
      ensures this.fields == fields
    {
      this.fields := fields;
    }

    /** The click handler of a stepper button: read the target input, count one
        step within [0, MaxQty] and write the number back as its value. */
    method Click(action: string, target: string)
      modifies this
      ensures fields == Clicked(old(fields), action, target)
    {
      var found := FindField(fields, target);
      if found.None? {
        return;
      }
      var i := found.value;
      var current := StepperReading(fields[i].value);
      if action == "increase" && current < MaxQty {
        current := current + 1;
      } else if action == "decrease" && current > 0 {
        current := current - 1;
      }
      fields := fields[i := fields[i].(value := IntToString(current))];
    }
  }
}
