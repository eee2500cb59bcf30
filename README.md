# Food-truck order form (WEB002): a Dafny model of the form logic

The page is the ordering form of a food truck. A customer sets quantities with +/- stepper buttons, picks a pickup hour and minute, chooses tastes and a cut for each main dish, and submits. This project models what the browser script does with that data:

- the stepper buttons, which count a quantity input up or down within 0..99;
- `recalc`, which turns the quantity inputs into ordered lines and a total, at 20 per main item and 10 per side item;
- `generatePickupTime`, which builds the hour options 14..20 and the minute options 00, 05, …, 55, and `updateEta`, which combines the two choices into "H:MM";
- `handleSubmit`, which makes three checks in order: a pickup time is picked, at least one item is ordered, and a backend address is configured. It then collects the cut choices and builds the payload, including its formatted order summary.

The JavaScript built-ins the script relies on are modelled in module `JsText`, on strings of Unicode scalar values: ECMAScript white space, `trim`, `split` on a character or on `/[\s\#]/`, `join`, `parseInt` with and without a radix, `String(n)` for integers, `padStart`, and `slice(-n)`.

Modules, one per part of the script:

| module | file | part of `WEB002/app.js` |
|---|---|---|
| `JsText` | jstext.dfy | string and number built-ins |
| `OrderForm` | order_form.dfy | quantity inputs and the stepper click handler (class `Quantities`) |
| `OrderTotal` | order_total.dfy | `recalc` |
| `PickupTime` | pickup_time.dfy | `generatePickupTime`, `updateEta` |
| `OrderCuts` | cuts.dfy | the cut-collecting loop of `handleSubmit` |
| `ItemLines` | item_lines.dfy | `itemsDetail` and the three-per-row item lines |
| `Submission` | submission.dfy | `handleSubmit`: checks, payload, order summary |

The page state is passed in as values:

- The quantity inputs are a `seq<QtyField>` in document order. `querySelector` is the first input with a given `data-name`.
- The cut selects are a `seq<CutSelect>`.
- The JavaScript object `cuts` is a list of entries in insertion order. Assigning to an existing key updates that entry in place; a new key is appended.
- A `null` from `querySelector` in the cut loop makes the handler throw before anything is sent. The model returns this as the rejection `CutInputMissing(item)`.

The loops of the source are methods with loop invariants, each proved against a specification function:

- `Recalc` against `Items` and `Sum`;
- `HourOptions`, and `MinuteOptions` against `Marks`;
- `BuildCuts` against `Cuts`;
- `BuildItemLines` against `Chunks` and `LineTexts`;
- `HandleSubmit` against `Submit`.

The stepper mutates its input in place, so it is the class `Quantities` with a `modifies` clause.

## Model

| member | source | states |
|---|---|---|
| JsText.TrimStart | WEB002/app.js:695 | the result is a suffix of the input; everything dropped is white space, and the result does not start with white space |
| JsText.TrimEnd | WEB002/app.js:695 | the result is a prefix of the input; everything dropped is white space, and the result does not end with white space |
| JsText.Trim | WEB002/app.js:695 | trim never lengthens a string, and the result neither starts nor ends with white space |
| JsText.TrimSlice | WEB002/app.js:697 | trim keeps one contiguous slice of the input and drops only white space after it |
| JsText.Split | WEB002/app.js:695 | String.prototype.split on one separator character or class; its contract gives only at least one piece, and its meaning is in FirstIndexFirst, SplitPieces, SplitHead, JoinSplit and SplitJoin |
| JsText.Join | WEB002/app.js:688 | Array.prototype.join; no contract of its own, its meaning is in JoinSplit, SplitJoin, JoinAppend and JoinAvoids |
| JsText.FirstIndexFirst | WEB002/app.js:695 | split cuts at the first separator: none comes before it, and one stands there unless it is the end |
| JsText.SplitPieces | WEB002/app.js:695 | no piece of a split holds a separator |
| JsText.SplitHead | WEB002/app.js:696 | the first piece of a split is the text before the first separator |
| JsText.JoinSplit | WEB002/app.js:699 | joining the pieces of split(c) with c gives back the string |
| JsText.SplitJoin | WEB002/app.js:699 | splitting a join of pieces that hold no c gives back the pieces |
| JsText.SplitConcat | WEB002/app.js:714-720 | splitting x + c + y on c gives the pieces of x followed by the pieces of y |
| JsText.SplitLast | WEB002/app.js:720 | the last piece of splitting x + c + y, where y holds no c, is y |
| JsText.JoinAppend | WEB002/app.js:688 | the join of two non-empty lists is the two joins with one separator between them |
| JsText.JoinAvoids | WEB002/app.js:708 | a join holds a character only if a piece or the separator holds it |
| JsText.ParseInt | WEB002/app.js:514 | parseInt with radix 10 or none; no contract of its own, its meaning is in ParseIntTrimmed, RadixAgrees and ParseIntToString |
| JsText.ParseIntTrimmed | WEB002/app.js:620 | parseInt skips leading white space, then reads an optional sign and the longest digit run |
| JsText.RadixAgrees | WEB002/app.js:683 | parseInt(s) and parseInt(s, 10) agree on every string without a "0x" prefix |
| JsText.NatToString | WEB002/app.js:522 | String(n) for n >= 0 is a non-empty run of decimal digits, and it starts with "0" only when it is "0"; its value is in NatToStringValue |
| JsText.NatToStringValue | WEB002/app.js:522 | String(n) for n >= 0 is the decimal digits of n |
| JsText.IntToString | WEB002/app.js:522 | String(n) starts with '-' exactly when n < 0, and holds no ':', line break or white space |
| JsText.ParseIntToString | WEB002/app.js:514 | parseInt reads String(n) back as n, with or without a radix |
| JsText.PadStart | WEB002/app.js:476 | padStart has the target width (or the input's length if longer), ends with the input and is filled in front |
| JsText.PadTwoDigitsShape | WEB002/app.js:476 | a number below 100 padded to two places is exactly two digits |
| JsText.PadTwoDigits | WEB002/app.js:476 | a number below 100 padded to two places reads back as the number |
| JsText.TakeLast | WEB002/app.js:698 | slice(-3) is the last three characters, or the whole string if it is shorter |
| OrderForm.Step | WEB002/app.js:516-520 | a step keeps a quantity in 0..99; it counts up exactly for "increase" below 99, down exactly for "decrease" above 0, and otherwise leaves the quantity alone |
| OrderForm.StepperReading | WEB002/app.js:514 | parseInt(value), or 0 when that is NaN; no contract of its own, its use is stated by ClickOnce, ClickBlank and ClickChangesOnlyTarget |
| OrderForm.FindField | WEB002/app.js:510 | the lookup by data-name finds the first input with that name, or reports that none has it |
| OrderForm.Clicked | WEB002/app.js:504-527 | a click keeps every input's position, name and kind |
| OrderForm.ClickChangesOnlyTarget | WEB002/app.js:510-523 | a click changes no input of another name; the target then reads within 0..99 whenever it read within 0..99 before |
| OrderForm.ClickOnce | WEB002/app.js:514-523 | clicking an input the stepper reads as v (a blank or non-numeric one reads as 0) writes String(step(v)) into that input and nothing else, and the input is still the one found by its name |
| OrderForm.ClickBlank | WEB002/app.js:514-522 | on a blank input "+" writes "1" and "-" writes "0" |
| OrderForm.ClickPairCancels | WEB002/app.js:514-523 | two clicks whose steps cancel leave String(v) in the input the stepper read as v and every other input as it was; an input that held String(v) is restored exactly |
| OrderForm.ClickUndo | WEB002/app.js:516-520 | "+" then "-" from 0..98, and "-" then "+" from 1..99, restore the inputs |
| OrderForm.SameNamesSameFind | WEB002/app.js:510 | the lookup depends only on the inputs' names |
| OrderForm.Quantities.Click | WEB002/app.js:504-527 | the click handler updates the inputs in place to the clicked state |
| OrderTotal.Items | WEB002/app.js:619-628 | there is one well-formed line per ordered input at most: quantity above 0, price main or side, subtotal = quantity * price |
| OrderTotal.IsOrdered | WEB002/app.js:620-621 | the test n > 0 on the radix-10 reading of the input; no contract of its own, its meaning is in ItemsEmpty and ItemsFields |
| OrderTotal.UnitPrice | WEB002/app.js:624 | the main price for kind "main", the side price otherwise; no contract of its own, stated for every line by ItemsFields |
| OrderTotal.LineReading | WEB002/app.js:620 | parseInt of the value, or of "0" when it is empty, in radix 10; no contract of its own, its meaning is in ItemsEmpty and ItemsFields |
| OrderTotal.LineOf | WEB002/app.js:622-626 | the line pushed for an ordered input; no contract of its own, its fields are stated by ItemsFields |
| OrderTotal.Sum | WEB002/app.js:625 | the running total; no contract of its own, its meaning is in SumAppend, SumSign and Recalc |
| OrderTotal.Recalc | WEB002/app.js:611-643 | the loop produces exactly the lines of the ordered inputs and the sum of their subtotals |
| OrderTotal.ItemsAppend | WEB002/app.js:619-628 | the lines of two runs of inputs are the lines of each run, in order |
| OrderTotal.SumAppend | WEB002/app.js:625 | the total of two runs of lines is the sum of their totals |
| OrderTotal.ItemsMembers | WEB002/app.js:619-628 | a line is in the order if and only if it is the line of some ordered input |
| OrderTotal.ItemsFields | WEB002/app.js:620-626 | every line of the order carries an input's name, the number parseInt reads from it (above 0), the main price for kind "main" and the side price otherwise, and subtotal = quantity * price |
| OrderTotal.ItemsEmpty | WEB002/app.js:620-621 | there are no lines if and only if no input reads above 0 |
| OrderTotal.NothingOrderedTotalZero | WEB002/app.js:617-628 | with nothing ordered the total is 0 |
| OrderTotal.SumSign | WEB002/app.js:625-626 | a total of well-formed lines is at least 0 under prices that are not negative, and above 0 exactly when there is a line, under positive prices |
| OrderTotal.TotalSign | WEB002/app.js:611-643 | recalc's total is at least 0 under prices that are not negative, and above 0 exactly when some input is ordered, under positive prices |
| PickupTime.HourOptions | WEB002/app.js:462-471 | the hour select holds the placeholder and then one option per hour from hourStart to hourEnd, in order |
| PickupTime.HourOption | WEB002/app.js:467-470 | one hour option, value String(h) and text "h 點"; no contract of its own, used by HourOptions and ChosenEtaRoundTrip |
| PickupTime.Marks | WEB002/app.js:474 | every minute mark lies between the starting minute and 59 |
| PickupTime.MinuteOptions | WEB002/app.js:474-480 | the minute loop produces the placeholder and then the option of each minute mark, in order |
| PickupTime.MinuteOptionsAt | WEB002/app.js:474-480 | option k of a run of minutes is the option of minute k |
| PickupTime.MinuteText | WEB002/app.js:476 | the two-place minute text; no contract of its own, its meaning is in MinuteTextDigits and MinuteTextParses |
| PickupTime.MinuteOption | WEB002/app.js:475-478 | one minute option, value and text from the minute text; no contract of its own, used by MinuteOptions and ChosenEtaRoundTrip |
| PickupTime.MarksArithmetic | WEB002/app.js:474 | mark k is from + k * interval, and the next mark would reach 60 |
| PickupTime.MinutesComplete | WEB002/app.js:474 | every multiple of the interval below 60 is offered, at its place |
| PickupTime.ConfiguredMinutes | WEB002/config.js:58-62 | with the shop's interval of 5 the picker offers twelve minutes, 00 to 55 |
| PickupTime.MinuteTextDigits | WEB002/app.js:476 | every minute option is exactly two digits |
| PickupTime.MinuteTextParses | WEB002/app.js:476-477 | every minute option reads back as its minute |
| PickupTime.ComposeEta | WEB002/app.js:490-498 | the combined time is empty exactly when either choice is empty; otherwise it is the hour, a colon and the minute |
| PickupTime.EtaSplits | WEB002/app.js:494 | splitting the combined time on ':' gives back both choices when neither holds a colon |
| PickupTime.ChosenEtaRoundTrip | WEB002/app.js:490-498 | a time picked from the two selects splits back into hour and minute, and both read back as numbers |
| OrderCuts.KeyIndex | WEB002/app.js:684 | a property lookup finds the first entry with that key, or reports that none has it |
| OrderCuts.PutEntry | WEB002/app.js:684 | obj[k] = v; no contract of its own, its meaning is in PutEntryLookup |
| OrderCuts.PutEntryLookup | WEB002/app.js:684 | after obj[k] = v, obj[k] is v, every other key reads as before, and keys stay distinct |
| OrderCuts.KeyIndexAppend | WEB002/app.js:684 | a new key appended last is found only when no earlier entry has it |
| OrderCuts.SameKeysSameIndex | WEB002/app.js:684 | the lookup depends only on the keys |
| OrderCuts.LastChoice | WEB002/app.js:681-686 | the choice of the last select aimed at an item, or None exactly when no select is aimed at it |
| OrderCuts.Wants | WEB002/app.js:682-683 | the test parseInt(qty) > 0 on the item's input; no contract of its own, used by CutsMeaning |
| OrderCuts.CutsFrom | WEB002/app.js:681-686 | the forEach over the selects from a given object; no contract of its own, its meaning is in CutsFromLookup, CutsFromError and CutsFromOrder |
| OrderCuts.Cuts | WEB002/app.js:680-686 | the cuts object, from {}; no contract of its own, its meaning is in CutsMeaning and CutsOrder |
| OrderCuts.BuildCuts | WEB002/app.js:680-686 | the cut loop produces exactly the cuts object of the specification, or stops at the first select whose item has no input |
| OrderCuts.CutsFromLookup | WEB002/app.js:681-686 | each key of the result holds the last choice for its item when the item reads above 0, and otherwise what the object held before |
| OrderCuts.CutsFromError | WEB002/app.js:682 | the loop fails exactly when some select's item has no input, and it names the first such item |
| OrderCuts.CutsMeaning | WEB002/app.js:680-686 | a cut is recorded for item k exactly when k reads above 0, and the recorded choice is that of the last select aimed at k; keys are distinct |
| OrderCuts.CutsForItems | WEB002/app.js:680-686 | without "0x" inputs and with the cut selects beside main items, a cut is recorded only for a main item that recalc puts on the order, at the main price |
| OrderCuts.FirstAim | WEB002/app.js:681 | the index of the first select aimed at an item: no earlier select is aimed at it |
| OrderCuts.CutsFromOrder | WEB002/app.js:681-686 | the loop keeps the keys it starts with in place and appends each wanted item's key in the order of its first select |
| OrderCuts.CutsOrder | WEB002/app.js:680-692 | the cuts object, and so cutStr, lists its items in the order of their first cut selects |
| ItemLines.Labels | WEB002/app.js:688 | there is one "name xqty" label per line, in order |
| ItemLines.Label | WEB002/app.js:688 | `${it.name} x${it.qty}`; no contract of its own, used by Labels |
| ItemLines.Detail | WEB002/app.js:688 | itemsDetail; no contract of its own, its meaning is in RowsRejoin and PayloadContents |
| ItemLines.LabelsAppend | WEB002/app.js:688 | the labels of two runs of lines are the labels of each run, in order |
| ItemLines.Chunks | WEB002/app.js:704-707 | the rows are non-empty, hold at most three lines each, and every row but the last holds exactly three |
| ItemLines.ChunksFlatten | WEB002/app.js:704-707 | the rows put back together are the lines, in order |
| ItemLines.ChunkMembers | WEB002/app.js:705 | every line of a row is a line of the order |
| ItemLines.ChunkCount | WEB002/app.js:704 | there are ceil(count / 3) rows |
| ItemLines.LineTexts | WEB002/app.js:705-706 | each row's text is the " / " join of its labels |
| ItemLines.BuildItemLines | WEB002/app.js:703-707 | the row loop produces the text of each row of three, in order |
| ItemLines.RowsRejoin | WEB002/app.js:688-708 | joining the row texts with " / " gives itemsDetail back |
| Submission.MainNameMeaning | WEB002/app.js:695-696 | the main name is the start of the trimmed name, holds no white space or '#', and stops at the first one |
| Submission.MainName | WEB002/app.js:695-696 | the first piece of the trimmed name; no contract of its own, its meaning is in MainNameMeaning |
| Submission.TimeText | WEB002/app.js:699-700 | timeStr; no contract of its own, its meaning is in ChosenTimeText and TimeTextWithoutColon |
| Submission.MainNameNoBreak | WEB002/app.js:695-696 | the main name holds no line break |
| Submission.LastDigitsNoBreak | WEB002/app.js:697-698 | the last three phone characters hold no line break when the phone holds none |
| Submission.TimeTextNoBreak | WEB002/app.js:699-700 | the printed time holds no line break when the eta holds none |
| Submission.ChosenTimeText | WEB002/app.js:699-700 | a time picked from the selects prints as "H點MM分" |
| Submission.TimeTextWithoutColon | WEB002/app.js:699-700 | an eta without a colon prints "undefined" for the minute |
| Submission.EntryValues | WEB002/app.js:691 | one value per taste, in the object's order |
| Submission.EntryTexts | WEB002/app.js:711 | one "key：value" text per entry, in order |
| Submission.TasteEntries | WEB002/app.js:672-677 | the four taste choices in the object literal's order; no contract of its own, used by TasteStr, TasteText and PayloadSummary |
| Submission.TasteStr | WEB002/app.js:691 | tasteStr; no contract of its own, built from EntryValues |
| Submission.TasteText | WEB002/app.js:711 | tasteText; no contract of its own, built from EntryTexts, and its lines are stated by PayloadSummary |
| Submission.CutText | WEB002/app.js:692 | cutStr; no contract of its own, built from EntryTexts over the cuts, whose order is stated by CutsOrder |
| Submission.RowsNoBreak | WEB002/app.js:703-708 | item rows hold no line break when the item names hold none |
| Submission.Summary | WEB002/app.js:714-720 | orderSummary, with the constant headings ItemsHeading and TasteHeading; no contract of its own, its lines are stated by SummaryLines |
| Submission.NameLine | WEB002/app.js:714 | the first summary line, "① 姓名.後三碼：" then the main name, "." and the last phone digits; no contract of its own, used by SummaryLines and PayloadSummary |
| Submission.TimeLine | WEB002/app.js:715 | the second summary line, "② 想預訂的時間：" then timeStr; no contract of its own, used by SummaryLines and PayloadSummary |
| Submission.AmountLine | WEB002/app.js:720 | the last summary line, "金額：" then String(total); no contract of its own, its meaning is in AmountReadsBack |
| Submission.SummaryLines | WEB002/app.js:714-720 | the summary, split into lines, is the name line, the time line, the item heading, the item rows, the taste heading, the taste lines and the amount line |
| Submission.AmountReadsBack | WEB002/app.js:720 | the amount line reads back as the total after its "金額：" label |
| Submission.HandleSubmit | WEB002/app.js:646-735 | the handler produces exactly the specified outcome: the first failing check, or the payload |
| Submission.EndpointUnsetIn | WEB002/app.js:666 | the address check: empty or still the placeholder; no contract of its own, its meaning is in SubmitRejections and ConfiguredEndpointRefuses |
| Submission.Submit | WEB002/app.js:646-735 | the outcome of the handler; no contract of its own, its meaning is in SubmitRejections, SubmitAccepts and SubmitPayload |
| Submission.PayloadOf | WEB002/app.js:722-735 | the payload object; no contract of its own, its fields are stated by PayloadContents and PayloadSummary |
| Submission.SubmitRejections | WEB002/app.js:652-686 | each check fails exactly when its condition holds and every earlier check passed; a missing cut input names the first such item |
| Submission.SubmitAccepts | WEB002/app.js:652-686 | a payload is sent exactly when a time is set, an item is ordered, the address is configured and every cut select has its input |
| Submission.ConfiguredEndpointRefuses | WEB002/config.js:18 | with the shipped placeholder address nothing is sent |
| Submission.SubmitPayload | WEB002/app.js:722-735 | a sent payload is built from recalc's lines, their total and the cuts |
| Submission.PayloadContents | WEB002/app.js:722-735 | the payload total is the sum of the subtotals, above 0 under positive prices; the rows rejoin into itemsDetail; eta and source are as given |
| Submission.PayloadSummary | WEB002/app.js:695-720 | the summary of a sent order splits into the specified lines, and its last line reads back as the payload total |

## Left out

- Number formatting and arithmetic on doubles are not modelled. Quantities and prices are unbounded integers, so no Infinity and no exponent notation appear. parseInt's digit run is exact, with no rounding of very long runs.
- OrderCuts.Cuts keeps object keys in insertion order. JavaScript lists integer-like keys first in ascending order; the menu's item names are never integer-like.
- Rendering is not modelled: the preview list, the total element, the result messages and the option elements themselves.
- Authorization, the lock screen, the image modal, the reset dialog, the menu and taste markup, and `fetch` are not modelled. Nothing after building the payload is modelled either.
- The payload's `ts` timestamp is not modelled (it reads the clock).
- The `data-name` selector is modelled as an exact name match. A name holding a quote character would break the selector in the browser.
- JsText.TakeLast: strings are sequences of Unicode scalar values, while `slice(-3)` counts UTF-16 code units, so the last three phone characters differ from JavaScript's when the phone holds a character outside the Basic Multilingual Plane (for "😀12" JavaScript gives the low half of the surrogate pair, U+DE00, followed by "12", while the model gives "😀12"). `JsText.PadStart` counts the same way; the script pads only digit strings, where the two agree. A lone surrogate cannot be represented.
- OrderCuts.CutsForItems requires that each cut select stands beside a main item (`CutsBesideMains`). Only the page markup ties the two together (the main-item card puts the select beside an input of `data-type="main"`).
- OrderCuts.CutsForItems requires that no input holds a "0x" number. Sanitised number inputs never do, and parseInt without a radix would read such a value as hexadecimal.
- Submission.PayloadSummary requires that the phone, the time, the item names and the taste choices hold no line break. The phone is a single-line input, which holds no line break; the time comes from the two selects, and the item names and taste choices come from the configuration.
- PickupTime.MinuteOptions requires a positive interval, because the source loop never ends otherwise.
- Line breaks in the summary template are written "\n". ECMAScript normalises the CRLF line endings of the source file inside template literals.
- config.js is used only for its constants: the prices (main 20, side 10), the pickup hours 14..20 every 5 minutes, and the placeholder backend address.
