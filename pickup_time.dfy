/** The pickup-time pickers: the hour and minute <select> options the page
    generates, and the "H:MM" value the two choices combine into. */
module PickupTime {
  import opened JsText

  /** One <option>: the value it submits and the text it shows. */
  datatype SelectOption = SelectOption(value: string, text: string)

  /** CONFIG.pickupTime: the first and last pickup hour and the minute step. */
  datatype PickupConfig = PickupConfig(hourStart: int, hourEnd: int, minuteInterval: int)

  /** The shop's pickup hours, 14 to 20, every 5 minutes. */
  const ConfiguredPickup := PickupConfig(14, 20, 5)

  /** The option of an hour h: value String(h), text "h 點". */
  function HourOption(h: int): SelectOption
  {
    SelectOption(IntToString(h), IntToString(h) + " 點")
  }

  /** The two-digit text of minute m: m.toString().padStart(2, '0'). */
  function MinuteText(m: nat): string
  {
    PadStart(NatToString(m), 2, '0')
  }

  /** The option of a minute m: value and text are its two digits, the text
      followed by " 分". */
  function MinuteOption(m: nat): SelectOption
  {
    SelectOption(MinuteText(m), MinuteText(m) + " 分")
  }

  /** The hour picker: a placeholder "時" with the empty value, then one option
      per hour from hourStart up to hourEnd; only the placeholder when the
      range is empty. */
  method HourOptions(hourStart: int, hourEnd: int) returns (options: seq<SelectOption>)
    ensures |options| == 1 + (if hourEnd >= hourStart then hourEnd - hourStart + 1 else 0)
    ensures options[0] == SelectOption("", "時")
    ensures forall k :: 1 <= k < |options| ==> options[k] == HourOption(hourStart + k - 1)
  {
    options := [SelectOption("", "時")];
    var h := hourStart;
    while h <= hourEnd
      invariant hourStart <= h <= (if hourEnd >= hourStart then hourEnd + 1 else hourStart)
      invariant |options| == 1 + h - hourStart
      invariant options[0] == SelectOption("", "時")
      invariant forall k :: 1 <= k < |options| ==> options[k] == HourOption(hourStart + k - 1)
    {
      options := options + [HourOption(h)];
      h := h + 1;
    }
  }

  /** The minutes the picker offers from minute `from` on: from, from +
      interval, ... while below 60. */
  function Marks(from: nat, interval: int): (ms: seq<nat>)
    requires interval > 0
    ensures forall k :: 0 <= k < |ms| ==> from <= ms[k] < 60
    decreases 60 - from
  {
    if from >= 60 then [] else [from] + Marks(from + interval, interval)
  }

  /** The options of a run of minutes, in order. */
  function MinuteOptionsOf(ms: seq<nat>): (options: seq<SelectOption>)
    ensures |options| == |ms|
  {
    if |ms| == 0 then [] else [MinuteOption(ms[0])] + MinuteOptionsOf(ms[1..])
  }

  /** The minute picker: a placeholder "分" with the empty value, then one
      option per minute mark. The source loop never ends for an interval that
      is not positive. */
  method MinuteOptions(interval: int) returns (options: seq<SelectOption>)
    requires interval > 0
    ensures options == [SelectOption("", "分")] + MinuteOptionsOf(Marks(0, interval))
  {
    options := [SelectOption("", "分")];
    ghost var all := options + MinuteOptionsOf(Marks(0, interval));
    var m: nat := 0;
    while m < 60
      invariant options + MinuteOptionsOf(Marks(m, interval)) == all
      decreases 60 - m
    {
      var next := options + [MinuteOption(m)];
      var after: nat := m + interval;
      MinuteStep(options, next, m, after, interval, all);
      options := next;
      m := after;
    }
  }

  /** One pass of the minute loop moves the option of mark m from the marks
      still to come to the options built so far. */
  lemma MinuteStep(options: seq<SelectOption>, next: seq<SelectOption>, m: nat, after: nat,
                   interval: int, all: seq<SelectOption>)
    requires interval > 0 && m < 60 && after == m + interval
    requires next == options + [MinuteOption(m)]
    requires options + MinuteOptionsOf(Marks(m, interval)) == all
    ensures next + MinuteOptionsOf(Marks(after, interval)) == all
  {
    var rest := Marks(after, interval);
    assert Marks(m, interval) == [m] + rest;
    OptionsCons(m, rest);
    AppendAssociates(options, [MinuteOption(m)], MinuteOptionsOf(rest));
  }

  /** The options of a mark followed by more marks. */
  lemma OptionsCons(m: nat, rest: seq<nat>)
    ensures MinuteOptionsOf([m] + rest) == [MinuteOption(m)] + MinuteOptionsOf(rest)
  {
    assert ([m] + rest)[1..] == rest;
  }

  /** Option k of a run of minutes is the option of minute k. */
  lemma {:induction false} MinuteOptionsAt(ms: seq<nat>, k: nat)
    requires k < |ms|
    ensures MinuteOptionsOf(ms)[k] == MinuteOption(ms[k])
  {
    if k > 0 {
      MinuteOptionsAt(ms[1..], k - 1);
    }
  }

  /** The marks from `from` are from + k * interval for k = 0, 1, ..., in
      ascending order, all below 60, and the next one would reach 60. */
  lemma {:induction false} MarksArithmetic(from: nat, interval: int)
    requires interval > 0
    ensures var ms := Marks(from, interval);
      && (forall k :: 0 <= k < |ms| ==> ms[k] == from + k * interval)
      && from + |ms| * interval >= 60
      && (from < 60 ==> |ms| >= 1)
    decreases 60 - from
  {
    var ms := Marks(from, interval);
    if from < 60 {
      var rest := Marks(from + interval, interval);
      MarksArithmetic(from + interval, interval);
      forall k | 0 <= k < |ms|
        ensures ms[k] == from + k * interval
      {
        if k > 0 {
          assert ms[k] == rest[k - 1];
          NextMultiple(k - 1, interval);
        }
      }
      NextMultiple(|rest|, interval);
    }
  }

  /** The minute picker offers every multiple of the interval below 60, and
      only those: mark k is k * interval. */
  lemma MinutesComplete(interval: int, j: nat)
    requires interval > 0 && j * interval < 60
    ensures var ms := Marks(0, interval); j < |ms| && ms[j] == j * interval
  {
    var ms := Marks(0, interval);
    MarksArithmetic(0, interval);
    ScaleOrder(j, |ms|, interval);
  }

  /** The next multiple of c. */
  lemma NextMultiple(n: int, c: int)
    ensures (n + 1) * c == n * c + c
  {
  }

  /** Multiplying by a positive factor keeps a strict order. */
  lemma ScaleOrder(a: int, b: int, c: int)
    requires c > 0 && a * c < b * c
    ensures a < b
  {
  }

  /** With the shop's interval of 5 minutes the picker offers the twelve
      minutes 00, 05, ..., 55. */
  lemma ConfiguredMinutes()
    ensures var ms := Marks(0, ConfiguredPickup.minuteInterval);
      |ms| == 12 && forall k :: 0 <= k < 12 ==> ms[k] == 5 * k
  {
    var ms := Marks(0, 5);
    MarksArithmetic(0, 5);
    assert |ms| * 5 >= 60;
    assert (|ms| - 1) * 5 < 60 by {
      assert ms[|ms| - 1] == (|ms| - 1) * 5;
    }
  }

  /** A minute below 60 is written with exactly two digits. */
  lemma MinuteTextDigits(m: nat)
    requires m < 60
    ensures |MinuteText(m)| == 2 && AllDigits(MinuteText(m))
  {
    PadTwoDigitsShape(m);
  }

  /** The two digits of a minute below 60 read back as the minute. */
  lemma MinuteTextParses(m: nat)
    requires m < 60
    ensures ParseInt(MinuteText(m), Ten) == Some(m as int)
  {
    PadTwoDigits(m, Ten);
  }

  /** updateEta: "hour:minute" once both pickers hold a choice, otherwise the
      empty string. */
  function ComposeEta(hour: string, minute: string): (eta: string)
    ensures eta == "" <==> hour == "" || minute == ""
    ensures eta != "" ==> |eta| == |hour| + 1 + |minute| && eta[|hour|] == ':'
    ensures eta != "" ==> eta[..|hour|] == hour && eta[|hour| + 1..] == minute
  {
    if hour != "" && minute != "" then hour + ":" + minute else ""
  }

  /** Splitting a combined time on ':' gives back the two choices when neither
      holds a colon. */
  lemma EtaSplits(hour: string, minute: string)
    requires hour != "" && minute != ""
    requires ':' !in hour && ':' !in minute
    ensures Split(ComposeEta(hour, minute), Char(':')) == [hour, minute]
  {
    assert Join([hour, minute], [':']) == hour + ":" + minute by {
      assert [hour, minute][1..] == [minute];
    }
    SplitJoin([hour, minute], ':');
  }

  /** A time chosen from the two pickers combines into a value that splits
      into the hour's and the minute's option values, and these read back as
      the hour and the minute. */
  lemma ChosenEtaRoundTrip(h: int, m: nat)
    requires m < 60
    ensures var eta := ComposeEta(HourOption(h).value, MinuteOption(m).value);
      && Split(eta, Char(':')) == [IntToString(h), MinuteText(m)]
      && ParseInt(Split(eta, Char(':'))[0], Ten) == Some(h)
      && ParseInt(Split(eta, Char(':'))[1], Ten) == Some(m as int)
  {
    MinuteTextDigits(m);
    MinuteTextParses(m);
    assert ':' !in MinuteText(m) by {
      assert forall k :: 0 <= k < |MinuteText(m)| ==> '0' <= MinuteText(m)[k] <= '9';
    }
    EtaSplits(IntToString(h), MinuteText(m));
    ParseIntToString(h, Ten);
  }
}
