/** handleSubmit: the checks that stop a submission, and the payload (with its
    formatted order summary) that is sent when none does. */
module Submission {
  import opened JsText
  import opened OrderForm
  import opened OrderTotal
  import opened OrderCuts
  import opened ItemLines
  import opened PickupTime

  /** What the order form holds when it is submitted. */
  datatype Form = Form(
    fields: seq<QtyField>,
    cutSelects: seq<CutSelect>,
    name: string,
    phone: string,
    pickupMethod: string,
    eta: string,
    note: string,
    spicy: string,
    saltiness: string,
    lemon: string,
    scallion: string)

  /** The part of CONFIG that submitting reads. */
  datatype Settings = Settings(pricing: Pricing, gasEndpoint: string)

  /** The value gasEndpoint holds until the shop deploys its backend. */
  const EndpointPlaceholder := "YOUR_GAS_DEPLOYMENT_URL_HERE"

  /** The shop's configuration as shipped. */
  const ConfiguredSettings := Settings(ConfiguredPricing, EndpointPlaceholder)

  /** Why nothing is sent: no pickup time, no ordered item, no backend
      address, or a cut select whose item has no quantity input (the handler
      throws reading .value of null). */
  datatype Rejection = NoPickupTime | NoItems | EndpointUnset | CutInputMissing(item: string)

  /** The payload posted to the backend (its ts timestamp is not modelled). */
  datatype Payload = Payload(
    name: string,
    phone: string,
    pickupMethod: string,
    eta: string,
    itemsDetail: string,
    total: int,
    taste: string,
    cut: string,
    note: string,
    orderSummary: string,
    source: string)

  /** !CONFIG.gasEndpoint || CONFIG.gasEndpoint === the placeholder */
  predicate EndpointUnsetIn(settings: Settings)
  {
    settings.gasEndpoint == "" || settings.gasEndpoint == EndpointPlaceholder
  }

  /** The customer's name up to the first white space or '#', once trimmed. */
  function MainName(name: string): string
  {
    Split(Trim(name), SpaceOrHash)[0]
  }

  /** The main name is the start of the trimmed name, holds no white space and
      no '#', and ends at the first of them or at the end of the name. */
  lemma MainNameMeaning(name: string)
    ensures var t := Trim(name); var r := MainName(name);
      && |r| <= |t| && r == t[..|r|]
      && (forall k :: 0 <= k < |r| ==> !IsSpace(r[k]) && r[k] != '#')
      && (|r| < |t| ==> IsSpace(t[|r|]) || t[|r|] == '#')
  {
    var t := Trim(name);
    SplitHead(t, SpaceOrHash);
    FirstIndexFirst(t, SpaceOrHash);
  }

  /** `${hour}點${minute}分` with [hour, minute] = eta.split(':'); a missing
      minute prints as "undefined". */
  function TimeText(eta: string): string
  {
    var parts := Split(eta, Char(':'));
    var minute := if |parts| >= 2 then parts[1] else "undefined";
    parts[0] + "點" + minute + "分"
  }

  /** A time picked from the two selects prints as its hour and its two-digit
      minute. */
  lemma ChosenTimeText(h: int, m: nat)
    requires m < 60
    ensures TimeText(ComposeEta(HourOption(h).value, MinuteOption(m).value)) ==
      IntToString(h) + "點" + MinuteText(m) + "分"
  {
    ChosenEtaRoundTrip(h, m);
  }

  /** A time without a colon prints with "undefined" for the minute. */
  lemma TimeTextWithoutColon(eta: string)
    requires ':' !in eta
    ensures TimeText(eta) == eta + "點" + "undefined" + "分"
  {
    FirstIndexAbsent(eta, ':');
    SplitWhole(eta, Char(':'));
  }

  /** The four taste choices in the order the object literal lists them. */
  function TasteEntries(form: Form): seq<Entry>
  {
    [Entry("辣度", form.spicy), Entry("鹹度", form.saltiness),
     Entry("檸檬", form.lemon), Entry("蔥泥", form.scallion)]
  }

  /** Object.entries(o).map(([k, v]) => v) */
  function EntryValues(es: seq<Entry>): (vs: seq<string>)
    ensures |vs| == |es|
    ensures forall k :: 0 <= k < |es| ==> vs[k] == es[k].value
  {
    if |es| == 0 then [] else [es[0].value] + EntryValues(es[1..])
  }

  /** Object.entries(o).map(([k, v]) => `${k}<between>${v}`) */
  function EntryTexts(es: seq<Entry>, between: string): (ts: seq<string>)
    ensures |ts| == |es|
    ensures forall k :: 0 <= k < |es| ==> ts[k] == es[k].key + between + es[k].value
  {
    if |es| == 0 then [] else [es[0].key + between + es[0].value] + EntryTexts(es[1..], between)
  }

  /** The taste field: the four choices joined with "、". */
  function TasteStr(form: Form): string
  {
    Join(EntryValues(TasteEntries(form)), "、")
  }

  /** The taste block of the summary: one "name：choice" line per taste. */
  function TasteText(form: Form): string
  {
    Join(EntryTexts(TasteEntries(form), "："), "\n")
  }

  /** The cut field: "item:choice" pairs joined with ", ". */
  function CutText(cuts: seq<Entry>): string
  {
    Join(EntryTexts(cuts, ":"), ", ")
  }

  /** The last line of the summary. */
  function AmountLine(total: int): string
  {
    "金額：" + IntToString(total)
  }

  /** The first line of the summary: name and last three phone digits. */
  function NameLine(mainName: string, last3: string): string
  {
    "① 姓名.後三碼：" + mainName + "." + last3
  }

  /** The second line of the summary: the pickup time. */
  function TimeLine(timeStr: string): string
  {
    "② 想預訂的時間：" + timeStr
  }

  /** The heading over the item rows. */
  const ItemsHeading := "③ 想預訂的餐點："

  /** The heading over the taste lines. */
  const TasteHeading := "④ 想搭配的調味："

  /** The order summary text. */
  function Summary(mainName: string, last3: string, timeStr: string, itemsText: string,
                   tasteText: string, total: int): string
  {
    NameLine(mainName, last3) + "\n" + TimeLine(timeStr) + "\n" + ItemsHeading + "\n" +
    itemsText + "\n" + TasteHeading + "\n" + tasteText + "\n" + AmountLine(total)
  }

  /** The summary read line by line: name, time, the item heading, the item
      rows, the taste heading, the taste lines and the amount, as long as no
      piece breaks a line of its own. */
  lemma SummaryLines(mainName: string, last3: string, timeStr: string, rows: seq<string>,
                     tastes: seq<string>, total: int)
    requires |rows| >= 1 && |tastes| >= 1
    requires '\n' !in mainName && '\n' !in last3 && '\n' !in timeStr
    requires forall k :: 0 <= k < |rows| ==> '\n' !in rows[k]
    requires forall k :: 0 <= k < |tastes| ==> '\n' !in tastes[k]
    ensures Split(Summary(mainName, last3, timeStr, Join(rows, "\n"), Join(tastes, "\n"), total), Char('\n')) ==
      [NameLine(mainName, last3), TimeLine(timeStr), ItemsHeading] + rows + [TasteHeading] + tastes +
      [AmountLine(total)]
  {
    var l1 := NameLine(mainName, last3);
    var l2 := TimeLine(timeStr);
    var l7 := AmountLine(total);
    NameLineNoBreak(mainName, last3);
    TimeLineNoBreak(timeStr);
    AmountLineNoBreak(total);
    HeadingsNoBreak();
    var head := l1 + "\n" + l2 + "\n" + ItemsHeading + "\n" + Join(rows, "\n");
    var p4 := [l1, l2, ItemsHeading] + rows;
    HeadLines(l1, l2, ItemsHeading, rows);
    TailLines(head, p4, TasteHeading, tastes, l7);
  }

  /** The headings break no line. */
  lemma HeadingsNoBreak()
    ensures '\n' !in ItemsHeading && '\n' !in TasteHeading
  {
  }

  /** Three lines and then the rows of a join. */
  lemma HeadLines(a: string, b: string, c: string, rows: seq<string>)
    requires |rows| >= 1
    requires '\n' !in a && '\n' !in b && '\n' !in c
    requires forall k :: 0 <= k < |rows| ==> '\n' !in rows[k]
    ensures Split(a + "\n" + b + "\n" + c + "\n" + Join(rows, "\n"), Char('\n')) == [a, b, c] + rows
  {
    SingleLine(a);
    SingleLine(b);
    SingleLine(c);
    SplitJoin(rows, '\n');
    SplitStep(a, b, [a], [b]);
    SplitStep(a + "\n" + b, c, [a, b], [c]);
    SplitStep(a + "\n" + b + "\n" + c, Join(rows, "\n"), [a, b, c], rows);
  }

  /** After the lines of head: a heading, the rows of a join and a last line. */
  lemma TailLines(head: string, lines: seq<string>, heading: string, rows: seq<string>, last: string)
    requires |rows| >= 1
    requires Split(head, Char('\n')) == lines
    requires '\n' !in heading && '\n' !in last
    requires forall k :: 0 <= k < |rows| ==> '\n' !in rows[k]
    ensures Split(head + "\n" + heading + "\n" + Join(rows, "\n") + "\n" + last, Char('\n')) ==
      lines + [heading] + rows + [last]
  {
    SingleLine(heading);
    SingleLine(last);
    SplitJoin(rows, '\n');
    SplitStep(head, heading, lines, [heading]);
    SplitStep(head + "\n" + heading, Join(rows, "\n"), lines + [heading], rows);
    SplitStep(head + "\n" + heading + "\n" + Join(rows, "\n"), last, lines + [heading] + rows, [last]);
  }

  /** One more line break and the lines after it. */
  lemma SplitStep(x: string, y: string, px: seq<string>, py: seq<string>)
    requires Split(x, Char('\n')) == px && Split(y, Char('\n')) == py
    ensures Split(x + "\n" + y, Char('\n')) == px + py
  {
    SplitConcat(x, y, '\n');
  }

  /** The name line breaks no line when its two pieces break none. */
  lemma NameLineNoBreak(mainName: string, last3: string)
    requires '\n' !in mainName && '\n' !in last3
    ensures '\n' !in NameLine(mainName, last3)
  {
  }

  /** The time line breaks no line when the time breaks none. */
  lemma TimeLineNoBreak(timeStr: string)
    requires '\n' !in timeStr
    ensures '\n' !in TimeLine(timeStr)
  {
  }

  /** The amount line breaks no line. */
  lemma AmountLineNoBreak(total: int)
    ensures '\n' !in AmountLine(total)
  {
    var digits := IntToString(total);
    assert forall k :: 0 <= k < |digits| ==> digits[k] != '\n';
  }

  /** A text without a line break is one line. */
  lemma SingleLine(s: string)
    requires '\n' !in s
    ensures Split(s, Char('\n')) == [s]
  {
    FirstIndexAbsent(s, '\n');
    SplitWhole(s, Char('\n'));
  }

  /** The amount line reads back as the total after its label. */
  lemma AmountReadsBack(total: int)
    ensures var line := AmountLine(total);
      |line| >= 3 && line[..3] == "金額：" && ParseInt(line[3..], Ten) == Some(total)
  {
    var line := AmountLine(total);
    assert line[3..] == IntToString(total);
    ParseIntToString(total, Ten);
  }

  /** The payload of a submission that passes every check. */
  function PayloadOf(form: Form, items: seq<Item>, total: int, cuts: seq<Entry>): Payload
  {
    Payload(
      Trim(form.name),
      Trim(form.phone),
      form.pickupMethod,
      form.eta,
      Detail(items),
      total,
      TasteStr(form),
      CutText(cuts),
      Trim(form.note),
      Summary(MainName(form.name), TakeLast(Trim(form.phone), 3), TimeText(form.eta),
              Join(LineTexts(Chunks(items, 3)), "\n"), TasteText(form), total),
      "web")
  }

  /** The outcome of a submit: the first check that fails, in the handler's
      order, or the payload to send. */
  function Submit(form: Form, settings: Settings): Result<Payload, Rejection>
  {
    var items := Items(form.fields, settings.pricing);
    if form.eta == "" then Err(NoPickupTime)
    else if |items| == 0 then Err(NoItems)
    else if EndpointUnsetIn(settings) then Err(EndpointUnset)
    else match Cuts(form.fields, form.cutSelects)
      case Err(item) => Err(CutInputMissing(item))
      case Ok(cuts) => Ok(PayloadOf(form, items, Sum(items), cuts))
  }

  /** handleSubmit up to the network request: recalc, the three checks, the
      cut loop, the row loop and the payload. */
  method HandleSubmit(form: Form, settings: Settings) returns (r: Result<Payload, Rejection>)
    ensures r == Submit(form, settings)
  {
    var items, total := Recalc(form.fields, settings.pricing);
    if form.eta == "" {
      return Err(NoPickupTime);
    }
    if |items| == 0 {
      return Err(NoItems);
    }
    if settings.gasEndpoint == "" || settings.gasEndpoint == EndpointPlaceholder {
      return Err(EndpointUnset);
    }
    var cuts := BuildCuts(form.fields, form.cutSelects);
    if cuts.Err? {
      return Err(CutInputMissing(cuts.error));
    }
    var itemsDetail := Detail(items);
    var tasteStr := TasteStr(form);
    var cutStr := CutText(cuts.value);
    var mainName := MainName(form.name);
    var phone := Trim(form.phone);
    var last3 := TakeLast(phone, 3);
    var timeStr := TimeText(form.eta);
    var lines := BuildItemLines(items);
    var itemsText := Join(lines, "\n");
    var tasteText := TasteText(form);
    var summary := Summary(mainName, last3, timeStr, itemsText, tasteText, total);
    r := Ok(Payload(Trim(form.name), phone, form.pickupMethod, form.eta, itemsDetail, total,
                    tasteStr, cutStr, Trim(form.note), summary, "web"));
  }

  /** Each check fails exactly when its condition holds and every earlier
      check passed; a missing cut input names the first select whose item has
      no quantity input. */
  lemma SubmitRejections(form: Form, settings: Settings)
    ensures Submit(form, settings) == Err(NoPickupTime) <==> form.eta == ""
    ensures Submit(form, settings) == Err(NoItems) <==>
      form.eta != "" && forall k :: 0 <= k < |form.fields| ==> !IsOrdered(form.fields[k])
    ensures Submit(form, settings) == Err(EndpointUnset) <==>
      && form.eta != ""
      && (exists k :: 0 <= k < |form.fields| && IsOrdered(form.fields[k]))
      && EndpointUnsetIn(settings)
    ensures Submit(form, settings).Err? && Submit(form, settings).error.CutInputMissing? ==>
      var item := Submit(form, settings).error.item;
      exists j :: 0 <= j < |form.cutSelects| && form.cutSelects[j].target == item &&
        FindField(form.fields, item).None? &&
        forall l :: 0 <= l < j ==> FindField(form.fields, form.cutSelects[l].target).Some?
  {
    ItemsEmpty(form.fields, settings.pricing);
    CutsFromError(form.fields, [], form.cutSelects);
  }

  /** A submission goes through exactly when a time is picked, some item is
      ordered, the backend address is set and every cut select has its
      item's quantity input. */
  lemma SubmitAccepts(form: Form, settings: Settings)
    ensures Submit(form, settings).Ok? <==>
      && form.eta != ""
      && (exists k :: 0 <= k < |form.fields| && IsOrdered(form.fields[k]))
      && !EndpointUnsetIn(settings)
      && forall j :: 0 <= j < |form.cutSelects| ==> FindField(form.fields, form.cutSelects[j].target).Some?
  {
    ItemsEmpty(form.fields, settings.pricing);
    CutsFromError(form.fields, [], form.cutSelects);
  }

  /** With the backend address as shipped nothing is ever sent, and a form
      that passes the first two checks is refused for the address. */
  lemma ConfiguredEndpointRefuses(form: Form)
    ensures !Submit(form, ConfiguredSettings).Ok?
    ensures form.eta != "" && |Items(form.fields, ConfiguredPricing)| > 0 ==>
      Submit(form, ConfiguredSettings) == Err(EndpointUnset)
  {
  }

  /** A payload carries recalc's lines and total: the total is the sum of the
      subtotals and above 0 under positive prices, the item rows of the
      summary rejoin into the item detail, the cut field lists exactly the
      recorded cuts, and the time and the source are the form's and "web". */
  lemma PayloadContents(form: Form, settings: Settings)
    requires Submit(form, settings).Ok?
    ensures var p := Submit(form, settings).value; var items := Items(form.fields, settings.pricing);
      && p.total == Sum(items)
      && (settings.pricing.main > 0 && settings.pricing.side > 0 ==> p.total > 0)
      && p.itemsDetail == Detail(items)
      && Join(LineTexts(Chunks(items, 3)), " / ") == p.itemsDetail
      && p.cut == CutText(Cuts(form.fields, form.cutSelects).value)
      && p.eta == form.eta && p.source == "web"
  {
    var items := Items(form.fields, settings.pricing);
    SubmitPayload(form, settings);
    TotalSign(form.fields, settings.pricing);
    ItemsEmpty(form.fields, settings.pricing);
    RowsRejoin(items);
  }

  /** Read line by line, the summary of a sent order gives the name line, the
      time line, the item rows, the four taste lines and an amount that reads
      back as the payload's total, provided the phone, the time, the item
      names and the taste choices hold no line break. */
  lemma PayloadSummary(form: Form, settings: Settings)
    requires Submit(form, settings).Ok?
    requires '\n' !in form.phone && '\n' !in form.eta
    requires '\n' !in form.spicy && '\n' !in form.saltiness && '\n' !in form.lemon && '\n' !in form.scallion
    requires forall k :: 0 <= k < |form.fields| ==> '\n' !in form.fields[k].name
    ensures var p := Submit(form, settings).value;
      var items := Items(form.fields, settings.pricing);
      var lines := Split(p.orderSummary, Char('\n'));
      && lines == [NameLine(MainName(form.name), TakeLast(Trim(form.phone), 3)), TimeLine(TimeText(form.eta)),
                   ItemsHeading] + LineTexts(Chunks(items, 3)) + [TasteHeading] +
                  EntryTexts(TasteEntries(form), "：") + [AmountLine(p.total)]
      && ParseInt(lines[|lines| - 1][3..], Ten) == Some(p.total)
  {
    var items := Items(form.fields, settings.pricing);
    SubmitPayload(form, settings);
    ItemsEmpty(form.fields, settings.pricing);
    var rows := LineTexts(Chunks(items, 3));
    var tastes := EntryTexts(TasteEntries(form), "：");
    var last3 := TakeLast(Trim(form.phone), 3);
    MainNameNoBreak(form.name);
    LastDigitsNoBreak(form.phone);
    TimeTextNoBreak(form.eta);
    RowsNoBreak(form.fields, settings.pricing, rows);
    TastesNoBreak(form);
    SummaryLines(MainName(form.name), last3, TimeText(form.eta), rows, tastes, Sum(items));
    AmountReadsBack(Sum(items));
  }

  /** A sent payload is the payload of the form's lines, total and cuts. */
  lemma SubmitPayload(form: Form, settings: Settings)
    requires Submit(form, settings).Ok?
    ensures var items := Items(form.fields, settings.pricing);
      |items| > 0 && Cuts(form.fields, form.cutSelects).Ok? &&
      Submit(form, settings).value == PayloadOf(form, items, Sum(items), Cuts(form.fields, form.cutSelects).value)
  {
  }

  /** The taste lines hold no line break when the choices hold none. */
  lemma TastesNoBreak(form: Form)
    requires '\n' !in form.spicy && '\n' !in form.saltiness && '\n' !in form.lemon && '\n' !in form.scallion
    ensures var ts := EntryTexts(TasteEntries(form), "：");
      |ts| == 4 && forall k :: 0 <= k < |ts| ==> '\n' !in ts[k]
  {
  }

  /** The main name holds no line break. */
  lemma MainNameNoBreak(name: string)
    ensures '\n' !in MainName(name)
  {
    MainNameMeaning(name);
  }

  /** The last three characters of a phone number without line breaks have
      none. */
  lemma LastDigitsNoBreak(phone: string)
    requires '\n' !in phone
    ensures '\n' !in TakeLast(Trim(phone), 3)
  {
    var t := Trim(phone);
    TrimSlice(phone);
    var i := |phone| - |TrimStart(phone)|;
    SliceAvoids(phone, i, i + |t|, '\n');
    SliceAvoids(t, |t| - |TakeLast(t, 3)|, |t|, '\n');
  }

  /** A slice holds no character the whole does not hold. */
  lemma SliceAvoids(s: string, i: nat, j: nat, c: char)
    requires i <= j <= |s| && c !in s
    ensures c !in s[i..j]
  {
    assert forall k :: 0 <= k < j - i ==> s[i..j][k] == s[i + k];
  }

  /** The printed time of an eta without line breaks has none. */
  lemma TimeTextNoBreak(eta: string)
    requires '\n' !in eta
    ensures '\n' !in TimeText(eta)
  {
    var parts := Split(eta, Char(':'));
    JoinSplit(eta, ':');
    PiecesInside(parts, [':'], '\n');
  }

  /** A piece of a join holds no character the join does not hold. */
  lemma {:induction false} PiecesInside(parts: seq<string>, sep: string, c: char)
    requires c !in Join(parts, sep)
    ensures forall k :: 0 <= k < |parts| ==> c !in parts[k]
  {
    if |parts| > 1 {
      assert Join(parts, sep) == parts[0] + sep + Join(parts[1..], sep);
      PiecesInside(parts[1..], sep, c);
      assert forall k :: 1 <= k < |parts| ==> parts[k] == parts[1..][k - 1];
    }
  }

  /** The item rows hold no line break when the item names hold none. */
  lemma RowsNoBreak(fields: seq<QtyField>, pricing: Pricing, rows: seq<string>)
    requires forall k :: 0 <= k < |fields| ==> '\n' !in fields[k].name
    requires rows == LineTexts(Chunks(Items(fields, pricing), 3))
    ensures forall k :: 0 <= k < |rows| ==> '\n' !in rows[k]
  {
    var items := Items(fields, pricing);
    forall it | it in items
      ensures '\n' !in it.name
    {
      ItemsMembers(fields, pricing, it);
    }
    var cs := Chunks(items, 3);
    forall k | 0 <= k < |cs|
      ensures '\n' !in Detail(cs[k])
    {
      ChunkMembers(items, 3, k);
      var ls := Labels(cs[k]);
      forall j | 0 <= j < |ls|
        ensures '\n' !in ls[j]
      {
        assert cs[k][j] in items;
      }
      JoinAvoids(ls, " / ", '\n');
    }
  }
}
