/** The cut choices collected on submit: for each cut <select> (one beside
    each main item), the choice is recorded under the item's name when that
    item's quantity input reads above 0. The record is a JavaScript object,
    modelled as a list of entries in insertion order. */
module OrderCuts {
  import opened JsText
  import opened OrderForm
  import opened OrderTotal

  datatype Result<T, E> = Ok(value: T) | Err(error: E)

  /** A cut <select>: the item name in its data-cut attribute and its value. */
  datatype CutSelect = CutSelect(target: string, choice: string)

  /** One property of the cuts object. */
  datatype Entry = Entry(key: string, value: string)

  /** The position of the property named k, if the object has one. */
  function KeyIndex(entries: seq<Entry>, k: string): (r: Option<nat>)
    ensures r.Some? ==> r.value < |entries| && entries[r.value].key == k
    ensures r.Some? ==> forall j :: 0 <= j < r.value ==> entries[j].key != k
    ensures r.None? ==> forall j :: 0 <= j < |entries| ==> entries[j].key != k
  {
    if |entries| == 0 then None
    else if entries[0].key == k then Some(0)
    else match KeyIndex(entries[1..], k)
      case None => None
      case Some(i) => Some(i + 1)
  }

  /** obj[k], or None when obj has no property k. */
  function Lookup(entries: seq<Entry>, k: string): Option<string>
  {
    match KeyIndex(entries, k)
    case None => None
    case Some(i) => Some(entries[i].value)
  }

  /** No two properties share a name. */
  predicate DistinctKeys(entries: seq<Entry>)
  {
    forall i, j :: 0 <= i < j < |entries| ==> entries[i].key != entries[j].key
  }

  /** obj[k] = v: an existing property keeps its place and takes the new
      value; a new property goes last. */
  function PutEntry(entries: seq<Entry>, k: string, v: string): seq<Entry>
  {
    match KeyIndex(entries, k)
    case Some(i) => entries[i := Entry(k, v)]
    case None => entries + [Entry(k, v)]
  }

  /** After obj[k] = v, obj[k] is v, every other property reads as before, and
      the names stay distinct. */
  lemma PutEntryLookup(entries: seq<Entry>, k: string, v: string, other: string)
    ensures Lookup(PutEntry(entries, k, v), k) == Some(v)
    ensures other != k ==> Lookup(PutEntry(entries, k, v), other) == Lookup(entries, other)
    ensures DistinctKeys(entries) ==> DistinctKeys(PutEntry(entries, k, v))
  {
    var r := PutEntry(entries, k, v);
    match KeyIndex(entries, k)
    case Some(i) =>
      SameKeysSameIndex(entries, r, k);
      SameKeysSameIndex(entries, r, other);
    case None =>
      KeyIndexAppend(entries, Entry(k, v), k);
      KeyIndexAppend(entries, Entry(k, v), other);
  }

  /** The lookup of a name sees only the names, position by position. */
  lemma {:induction false} SameKeysSameIndex(a: seq<Entry>, b: seq<Entry>, k: string)
    requires |a| == |b|
    requires forall j :: 0 <= j < |a| ==> a[j].key == b[j].key
    ensures KeyIndex(a, k) == KeyIndex(b, k)
  {
    if |a| > 0 && a[0].key != k {
      SameKeysSameIndex(a[1..], b[1..], k);
    }
  }

  /** A property appended last is found only when no earlier one has its name. */
  lemma {:induction false} KeyIndexAppend(entries: seq<Entry>, e: Entry, k: string)
    ensures KeyIndex(entries + [e], k) ==
      if KeyIndex(entries, k).Some? then KeyIndex(entries, k)
      else if e.key == k then Some(|entries|) else None
  {
    if |entries| > 0 && entries[0].key != k {
      assert (entries + [e])[1..] == entries[1..] + [e];
      KeyIndexAppend(entries[1..], e, k);
    } else if |entries| > 0 {
      assert (entries + [e])[0] == entries[0];
    }
  }

  /** The cut of item k is recorded when the first quantity input named k
      reads above 0 under parseInt without a radix. */
  predicate Wants(fields: seq<QtyField>, k: string)
  {
    match FindField(fields, k)
    case None => false
    case Some(i) =>
      var n := ParseInt(fields[i].value, Unspecified);
      n.Some? && n.value > 0
  }

  /** The choice of the last cut select aimed at k, if any. */
  function LastChoice(selects: seq<CutSelect>, k: string): (r: Option<string>)
    ensures r.None? <==> forall j :: 0 <= j < |selects| ==> selects[j].target != k
    ensures r.Some? ==>
      exists j :: 0 <= j < |selects| && selects[j].target == k && selects[j].choice == r.value &&
        forall l :: j < l < |selects| ==> selects[l].target != k
  {
    if |selects| == 0 then None
    else match LastChoice(selects[1..], k)
      case Some(c) =>
        assert forall l :: 1 <= l < |selects| ==> selects[l] == selects[1..][l - 1];
        Some(c)
      case None =>
        assert forall l :: 1 <= l < |selects| ==> selects[l] == selects[1..][l - 1];
        if selects[0].target == k then Some(selects[0].choice) else None
  }

  /** The forEach over the cut selects, from the object built so far: a select
      whose item has no quantity input stops everything with that item's name
      (reading .value of null throws). */
  function CutsFrom(fields: seq<QtyField>, acc: seq<Entry>, selects: seq<CutSelect>): Result<seq<Entry>, string>
    decreases |selects|
  {
    if |selects| == 0 then Ok(acc)
    else
      var s := selects[0];
      if FindField(fields, s.target).None? then Err(s.target)
      else CutsFrom(fields, if Wants(fields, s.target) then PutEntry(acc, s.target, s.choice) else acc, selects[1..])
  }

  /** The cuts object of a submission, starting from {}. */
  function Cuts(fields: seq<QtyField>, selects: seq<CutSelect>): Result<seq<Entry>, string>
  {
    CutsFrom(fields, [], selects)
  }

  /** The loop of handleSubmit that fills the cuts object. */
  method BuildCuts(fields: seq<QtyField>, selects: seq<CutSelect>) returns (r: Result<seq<Entry>, string>)
    ensures r == Cuts(fields, selects)
  {
    var entries: seq<Entry> := [];
    var j := 0;
    while j < |selects|
      invariant 0 <= j <= |selects|
      invariant CutsFrom(fields, entries, selects[j..]) == Cuts(fields, selects)
    {
      var s := selects[j];
      assert selects[j..][0] == s && selects[j..][1..] == selects[j + 1..];
      var found := FindField(fields, s.target);
      if found.None? {
        return Err(s.target);
      }
      var qty := fields[found.value].value;
      var n := ParseInt(qty, Unspecified);
      if n.Some? && n.value > 0 {
        entries := PutEntry(entries, s.target, s.choice);
      }
      j := j + 1;
    }
    return Ok(entries);
  }

  /** Each property of the result holds the choice of the last select aimed at
      its item when that item is wanted, and otherwise what the starting
      object held; distinct names stay distinct. */
  lemma {:induction false} CutsFromLookup(fields: seq<QtyField>, acc: seq<Entry>, selects: seq<CutSelect>, k: string)
    requires CutsFrom(fields, acc, selects).Ok?
    ensures var r := CutsFrom(fields, acc, selects).value;
      Lookup(r, k) == if Wants(fields, k) && LastChoice(selects, k).Some? then LastChoice(selects, k) else Lookup(acc, k)
    ensures DistinctKeys(acc) ==> DistinctKeys(CutsFrom(fields, acc, selects).value)
    decreases |selects|
  {
    if |selects| > 0 {
      var s := selects[0];
      var next := if Wants(fields, s.target) then PutEntry(acc, s.target, s.choice) else acc;
      CutsFromLookup(fields, next, selects[1..], k);
      PutEntryLookup(acc, s.target, s.choice, k);
    }
  }

  /** The loop stops exactly when some select's item has no quantity input,
      and it reports the first such select's item. */
  lemma {:induction false} CutsFromError(fields: seq<QtyField>, acc: seq<Entry>, selects: seq<CutSelect>)
    ensures CutsFrom(fields, acc, selects).Err? <==>
      exists j :: 0 <= j < |selects| && FindField(fields, selects[j].target).None?
    ensures CutsFrom(fields, acc, selects).Err? ==>
      exists j :: 0 <= j < |selects| && FindField(fields, selects[j].target).None? &&
        CutsFrom(fields, acc, selects).error == selects[j].target &&
        forall l :: 0 <= l < j ==> FindField(fields, selects[l].target).Some?
    decreases |selects|
  {
    if |selects| > 0 {
      var s := selects[0];
      var next := if Wants(fields, s.target) then PutEntry(acc, s.target, s.choice) else acc;
      CutsFromError(fields, next, selects[1..]);
      assert forall l :: 1 <= l < |selects| ==> selects[l] == selects[1..][l - 1];
      if FindField(fields, s.target).Some? && CutsFrom(fields, acc, selects).Err? {
        var j :| 0 <= j < |selects[1..]| && FindField(fields, selects[1..][j].target).None? &&
          CutsFrom(fields, next, selects[1..]).error == selects[1..][j].target &&
          forall l :: 0 <= l < j ==> FindField(fields, selects[1..][l].target).Some?;
        assert selects[j + 1] == selects[1..][j];
      }
    }
  }

  /** The cuts of a submission: a choice is recorded for item k exactly when
      a select is aimed at k and k's input reads above 0, the choice being
      that of the last such select; names are distinct. */
  lemma CutsMeaning(fields: seq<QtyField>, selects: seq<CutSelect>, k: string)
    requires Cuts(fields, selects).Ok?
    ensures Lookup(Cuts(fields, selects).value, k) == if Wants(fields, k) then LastChoice(selects, k) else None
    ensures DistinctKeys(Cuts(fields, selects).value)
  {
    CutsFromLookup(fields, [], selects, k);
  }

  /** Every cut select stands beside a main item: the input its item names,
      when there is one, is of kind "main". */
  predicate CutsBesideMains(fields: seq<QtyField>, selects: seq<CutSelect>)
  {
    forall j :: 0 <= j < |selects| && FindField(fields, selects[j].target).Some? ==>
      fields[FindField(fields, selects[j].target).value].kind == "main"
  }

  /** When no quantity input holds a "0x" number and the cut selects stand
      beside main items, a cut is recorded only for a main item that recalc
      puts on the order, under that item's name and at the main price. */
  lemma CutsForItems(fields: seq<QtyField>, selects: seq<CutSelect>, pricing: Pricing, k: string)
    requires forall j :: 0 <= j < |fields| ==> !HasHexPrefix(fields[j].value)
    requires CutsBesideMains(fields, selects)
    requires Cuts(fields, selects).Ok? && Lookup(Cuts(fields, selects).value, k).Some?
    ensures exists it :: it in Items(fields, pricing) && it.name == k && it.price == pricing.main
  {
    CutsMeaning(fields, selects, k);
    var i := FindField(fields, k).value;
    var f := fields[i];
    var j :| 0 <= j < |selects| && selects[j].target == k;
    assert f.kind == "main";
    RadixAgrees(f.value);
    ParseEmpty(Unspecified);
    assert f.value != "";
    assert IsOrdered(f);
    ItemsMembers(fields, pricing, LineOf(f, pricing));
  }

  /** The index of the first cut select aimed at k, or the number of selects
      when none is. */
  function FirstAim(selects: seq<CutSelect>, k: string): (j: nat)
    ensures j <= |selects|
    ensures j < |selects| ==> selects[j].target == k
    ensures forall l :: 0 <= l < j ==> selects[l].target != k
  {
    if |selects| == 0 then 0
    else if selects[0].target == k then 0
    else 1 + FirstAim(selects[1..], k)
  }

  /** r, the object the loop ends with when it starts from acc over selects,
      holds acc's keys in place, and after them new keys of wanted items in
      the order of their first selects. */
  predicate KeepsOrder(fields: seq<QtyField>, acc: seq<Entry>, selects: seq<CutSelect>, r: seq<Entry>)
  {
    && |acc| <= |r|
    && (forall i :: 0 <= i < |acc| ==> r[i].key == acc[i].key)
    && (forall i :: |acc| <= i < |r| ==>
          FirstAim(selects, r[i].key) < |selects| && Wants(fields, r[i].key) &&
          forall l :: 0 <= l < |acc| ==> acc[l].key != r[i].key)
    && (forall i, j :: |acc| <= i < j < |r| ==> FirstAim(selects, r[i].key) < FirstAim(selects, r[j].key))
  }

  /** Starting from an object, the loop keeps its keys in place and appends
      each new key when its first select is reached, so the new keys follow
      the order of their first selects. */
  lemma {:induction false} CutsFromOrder(fields: seq<QtyField>, acc: seq<Entry>, selects: seq<CutSelect>)
    requires CutsFrom(fields, acc, selects).Ok?
    ensures KeepsOrder(fields, acc, selects, CutsFrom(fields, acc, selects).value)
    decreases |selects|
  {
    if |selects| > 0 {
      var s := selects[0];
      var next := if Wants(fields, s.target) then PutEntry(acc, s.target, s.choice) else acc;
      CutsFromOrder(fields, next, selects[1..]);
      var r := CutsFrom(fields, next, selects[1..]).value;
      if !Wants(fields, s.target) {
        OrderKept(fields, acc, next, selects, r);
      } else {
        match KeyIndex(acc, s.target)
        case Some(i) =>
          OrderKept(fields, acc, next, selects, r);
        case None =>
          OrderAppended(fields, acc, selects, r);
      }
    }
  }

  /** A pass that keeps the keys as they are (its item is not wanted, or
      already has a key) keeps the order. */
  lemma OrderKept(fields: seq<QtyField>, acc: seq<Entry>, next: seq<Entry>, selects: seq<CutSelect>, r: seq<Entry>)
    requires |selects| > 0
    requires |next| == |acc| && forall l :: 0 <= l < |acc| ==> next[l].key == acc[l].key
    requires !Wants(fields, selects[0].target) || exists l :: 0 <= l < |acc| && acc[l].key == selects[0].target
    requires KeepsOrder(fields, next, selects[1..], r)
    ensures KeepsOrder(fields, acc, selects, r)
  {
    forall i | |acc| <= i < |r|
      ensures FirstAim(selects, r[i].key) == 1 + FirstAim(selects[1..], r[i].key)
    {
      assert r[i].key != selects[0].target;
    }
  }

  /** A pass that appends the key of its wanted item keeps the order: that
      key's first select is this one. */
  lemma OrderAppended(fields: seq<QtyField>, acc: seq<Entry>, selects: seq<CutSelect>, r: seq<Entry>)
    requires |selects| > 0 && Wants(fields, selects[0].target)
    requires forall l :: 0 <= l < |acc| ==> acc[l].key != selects[0].target
    requires KeepsOrder(fields, acc + [Entry(selects[0].target, selects[0].choice)], selects[1..], r)
    ensures KeepsOrder(fields, acc, selects, r)
  {
    var next := acc + [Entry(selects[0].target, selects[0].choice)];
    assert r[|acc|].key == next[|acc|].key == selects[0].target;
    forall i | |acc| < i < |r|
      ensures FirstAim(selects, r[i].key) == 1 + FirstAim(selects[1..], r[i].key)
    {
      assert next[|acc|].key != r[i].key;
    }
  }

  /** The cuts object lists its items in the order of their first cut
      selects, which fixes the order of the cut field (cutStr). */
  lemma CutsOrder(fields: seq<QtyField>, selects: seq<CutSelect>)
    requires Cuts(fields, selects).Ok?
    ensures var r := Cuts(fields, selects).value;
      && (forall i :: 0 <= i < |r| ==> FirstAim(selects, r[i].key) < |selects|)
      && (forall i, j :: 0 <= i < j < |r| ==> FirstAim(selects, r[i].key) < FirstAim(selects, r[j].key))
  {
    CutsFromOrder(fields, [], selects);
  }
}
