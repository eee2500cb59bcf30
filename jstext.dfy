/** The JavaScript string and number built-ins the order form relies on:
    whitespace, trim, split, join, parseInt, number-to-string, padStart and slice.
    Each is modelled on strings of Unicode scalar values. */
module JsText {

  datatype Option<T> = None | Some(value: T)

  /** ECMAScript WhiteSpace and LineTerminator code points: what trim() strips,
      what parseInt skips and what the regular-expression class \s matches. */
  predicate IsSpace(c: char) {
    || c == '\t' || c == '\U{B}' || c == '\U{C}' || c == ' ' || c == '\U{A0}' || c == '\U{FEFF}'
    || c == '\U{1680}' || ('\U{2000}' <= c <= '\U{200A}') || c == '\U{202F}' || c == '\U{205F}'
    || c == '\U{3000}'
    || c == '\n' || c == '\r' || c == '\U{2028}' || c == '\U{2029}'
  }

  /** String.prototype.trimStart */
  function TrimStart(s: string): (r: string)
    ensures |r| <= |s| && r == s[|s| - |r|..]
    ensures forall k :: 0 <= k < |s| - |r| ==> IsSpace(s[k])
    ensures r == [] || !IsSpace(r[0])
  {
    if |s| > 0 && IsSpace(s[0]) then TrimStart(s[1..]) else s
  }

  /** String.prototype.trimEnd */
  function TrimEnd(s: string): (r: string)
    ensures |r| <= |s| && r == s[..|r|]
    ensures forall k :: |r| <= k < |s| ==> IsSpace(s[k])
    ensures r == [] || !IsSpace(r[|r| - 1])
  {
    if |s| > 0 && IsSpace(s[|s| - 1]) then TrimEnd(s[..|s| - 1]) else s
  }

  /** String.prototype.trim: trimEnd after trimStart. */
  function Trim(s: string): (r: string)
    ensures |r| <= |s|
    ensures r == [] || (!IsSpace(r[0]) && !IsSpace(r[|r| - 1]))
  {
    TrimEnd(TrimStart(s))
  }

  /** trim() keeps the slice of s that starts where trimStart() stops and
      ends before trailing whitespace. */
  lemma TrimSlice(s: string)
    ensures var r := Trim(s); var i := |s| - |TrimStart(s)|;
      && i + |r| <= |s| && r == s[i..i + |r|]
      && (forall k :: i + |r| <= k < |s| ==> IsSpace(s[k]))
  {
    var t := TrimStart(s);
    var r := TrimEnd(t);
    var i := |s| - |t|;
    SliceOfSuffix(s, i, |r|);
    SpacesShift(s, i, |r|);
  }

  /** The first m characters of the suffix of s from i. */
  lemma SliceOfSuffix(s: string, i: nat, m: nat)
    requires i + m <= |s|
    ensures s[i..][..m] == s[i..i + m]
  {
  }

  /** Whitespace at the end of a suffix of s is whitespace at the end of s. */
  lemma SpacesShift(s: string, i: nat, m: nat)
    requires i + m <= |s|
    requires forall k :: m <= k < |s[i..]| ==> IsSpace(s[i..][k])
    ensures forall k :: i + m <= k < |s| ==> IsSpace(s[k])
  {
    forall k | i + m <= k < |s|
      ensures IsSpace(s[k])
    {
      assert s[k] == s[i..][k - i];
    }
  }

  /** The separators split() is called with: a one-character string, or the
      character class /[\s\#]/ (whitespace or '#'). */
  datatype Separator = Char(c: char) | SpaceOrHash

  predicate Matches(sep: Separator, c: char) {
    match sep
    case Char(d) => c == d
    case SpaceOrHash => IsSpace(c) || c == '#'
  }

  /** The index of the first separator character in s, or |s| when there is none. */
  function FirstIndex(s: string, sep: Separator): (i: nat)
    ensures i <= |s|
  {
    if |s| == 0 || Matches(sep, s[0]) then 0 else 1 + FirstIndex(s[1..], sep)
  }

  /** FirstIndex finds the first separator: none comes before it, and one is
      there unless it is the end of s. */
  lemma {:induction false} FirstIndexFirst(s: string, sep: Separator)
    ensures var i := FirstIndex(s, sep);
      && (forall k :: 0 <= k < i ==> !Matches(sep, s[k]))
      && (i < |s| ==> Matches(sep, s[i]))
  {
    if |s| > 0 && !Matches(sep, s[0]) {
      FirstIndexFirst(s[1..], sep);
      var i := FirstIndex(s, sep);
      forall k | 0 <= k < i
        ensures !Matches(sep, s[k])
      {
        if k > 0 {
          assert s[k] == s[1..][k - 1];
        }
      }
    }
  }

  /** String.prototype.split(sep) without a limit. */
  function Split(s: string, sep: Separator): (parts: seq<string>)
    ensures |parts| >= 1
    decreases |s|
  {
    var i := FirstIndex(s, sep);
    if i == |s| then [s] else [s[..i]] + Split(s[i + 1..], sep)
  }

  /** Concatenation associates. */
  lemma AppendAssociates<T>(a: seq<T>, b: seq<T>, c: seq<T>)
    ensures (a + b) + c == a + (b + c)
  {
  }

  /** Array.prototype.join(sep) on an array of strings. */
  function Join(parts: seq<string>, sep: string): string
  {
    if |parts| == 0 then ""
    else if |parts| == 1 then parts[0]
    else parts[0] + sep + Join(parts[1..], sep)
  }

  /** One step of a split: the text before the first separator, then the
      split of the rest. */
  lemma SplitUnfold(s: string, sep: Separator, i: nat, rest: seq<string>)
    requires i == FirstIndex(s, sep) < |s| && rest == Split(s[i + 1..], sep)
    ensures Split(s, sep) == [s[..i]] + rest
  {
  }

  /** A string without a separator splits into itself alone. */
  lemma SplitWhole(s: string, sep: Separator)
    requires FirstIndex(s, sep) == |s|
    ensures Split(s, sep) == [s]
  {
  }

  /** The first piece of a split is the text before the first separator. */
  lemma SplitHead(s: string, sep: Separator)
    ensures Split(s, sep)[0] == s[..FirstIndex(s, sep)]
  {
    var i := FirstIndex(s, sep);
    if i < |s| {
      SplitUnfold(s, sep, i, Split(s[i + 1..], sep));
    } else {
      SplitWhole(s, sep);
    }
  }

  /** No piece of a split holds a separator. */
  lemma {:induction false} SplitPieces(s: string, sep: Separator)
    ensures var parts := Split(s, sep);
      forall k, j :: 0 <= k < |parts| && 0 <= j < |parts[k]| ==> !Matches(sep, parts[k][j])
    decreases |s|
  {
    var i := FirstIndex(s, sep);
    FirstIndexFirst(s, sep);
    if i < |s| {
      var rest := Split(s[i + 1..], sep);
      SplitUnfold(s, sep, i, rest);
      SplitPieces(s[i + 1..], sep);
      PiecesCons(s[..i], rest, sep);
    } else {
      SplitWhole(s, sep);
    }
  }

  /** A separator-free head in front of separator-free pieces. */
  lemma PiecesCons(head: string, rest: seq<string>, sep: Separator)
    requires forall j :: 0 <= j < |head| ==> !Matches(sep, head[j])
    requires forall k, j :: 0 <= k < |rest| && 0 <= j < |rest[k]| ==> !Matches(sep, rest[k][j])
    ensures var parts := [head] + rest;
      forall k, j :: 0 <= k < |parts| && 0 <= j < |parts[k]| ==> !Matches(sep, parts[k][j])
  {
    var parts := [head] + rest;
    forall k, j | 0 <= k < |parts| && 0 <= j < |parts[k]|
      ensures !Matches(sep, parts[k][j])
    {
      if k > 0 {
        assert parts[k] == rest[k - 1];
      }
    }
  }

  /** Joining the pieces of a split with the separator gives back the string. */
  lemma {:induction false} JoinSplit(s: string, c: char)
    ensures Join(Split(s, Char(c)), [c]) == s
    decreases |s|
  {
    var i := FirstIndex(s, Char(c));
    if i == |s| {
      SplitWhole(s, Char(c));
    } else {
      var rest := Split(s[i + 1..], Char(c));
      SplitUnfold(s, Char(c), i, rest);
      JoinSplit(s[i + 1..], c);
      FirstIndexFirst(s, Char(c));
      JoinCons(s[..i], rest, [c]);
      Rejoin(s, i, c, s[..i], Join(rest, [c]));
    }
  }

  /** A string is the piece before its separator at i, the separator and the
      rest. */
  lemma Rejoin(s: string, i: nat, c: char, head: string, tail: string)
    requires i < |s| && s[i] == c && head == s[..i] && tail == s[i + 1..]
    ensures head + [c] + tail == s
  {
  }

  /** Joining a head in front of at least one more piece. */
  lemma JoinCons(head: string, rest: seq<string>, sep: string)
    requires |rest| >= 1
    ensures Join([head] + rest, sep) == head + sep + Join(rest, sep)
  {
    assert ([head] + rest)[1..] == rest;
  }

  /** Splitting a join of separator-free pieces gives back the pieces. */
  lemma {:induction false} SplitJoin(parts: seq<string>, c: char)
    requires |parts| >= 1
    requires forall k :: 0 <= k < |parts| ==> c !in parts[k]
    ensures Split(Join(parts, [c]), Char(c)) == parts
  {
    var s := Join(parts, [c]);
    if |parts| == 1 {
      FirstIndexAbsent(s, c);
      SplitWhole(s, Char(c));
    } else {
      var head := parts[0];
      var tail := parts[1..];
      assert parts == [head] + tail;
      var rest := Join(tail, [c]);
      JoinCons(head, tail, [c]);
      assert s == head + ([c] + rest);
      FirstIndexAt(head, [c] + rest, c);
      assert s[..|head|] == head;
      assert s[|head| + 1..] == rest;
      SplitJoin(tail, c);
      SplitUnfold(s, Char(c), |head|, tail);
    }
  }

  lemma FirstIndexAbsent(s: string, c: char)
    requires c !in s
    ensures FirstIndex(s, Char(c)) == |s|
  {
    FirstIndexFirst(s, Char(c));
  }

  lemma FirstIndexAt(s: string, t: string, c: char)
    requires c !in s && |t| > 0 && t[0] == c
    ensures FirstIndex(s + t, Char(c)) == |s|
  {
    FirstIndexFirst(s + t, Char(c));
    assert forall k :: 0 <= k < |s| ==> (s + t)[k] == s[k];
    assert (s + t)[|s|] == c;
  }

  /** A join of two non-empty lists is the two joins around one separator. */
  lemma {:induction false} JoinAppend(a: seq<string>, b: seq<string>, sep: string)
    requires |a| >= 1 && |b| >= 1
    ensures Join(a + b, sep) == Join(a, sep) + sep + Join(b, sep)
  {
    if |a| == 1 {
      assert (a + b)[1..] == b;
    } else {
      assert (a + b)[1..] == a[1..] + b;
      JoinAppend(a[1..], b, sep);
    }
  }

  /** A separator inside x is found at the same place in any extension of x. */
  lemma {:induction false} FirstIndexWithin(x: string, t: string, sep: Separator)
    requires FirstIndex(x, sep) < |x|
    ensures FirstIndex(x + t, sep) == FirstIndex(x, sep)
    decreases |x|
  {
    assert (x + t)[0] == x[0];
    if !Matches(sep, x[0]) {
      assert (x + t)[1..] == x[1..] + t;
      FirstIndexWithin(x[1..], t, sep);
    }
  }

  /** Splitting x + [c] + y on c splits x and y apart and then each of them. */
  lemma {:induction false} SplitConcat(x: string, y: string, c: char)
    ensures Split(x + [c] + y, Char(c)) == Split(x, Char(c)) + Split(y, Char(c))
    decreases |x|
  {
    var s := x + [c] + y;
    assert s == x + ([c] + y);
    var i := FirstIndex(x, Char(c));
    if i < |x| {
      FirstIndexWithin(x, [c] + y, Char(c));
      var tail := x[i + 1..];
      assert s[i + 1..] == tail + [c] + y;
      assert s[..i] == x[..i];
      SplitConcat(tail, y, c);
      SplitUnfold(s, Char(c), i, Split(s[i + 1..], Char(c)));
      SplitUnfold(x, Char(c), i, Split(tail, Char(c)));
      AppendAssociates([x[..i]], Split(tail, Char(c)), Split(y, Char(c)));
    } else {
      FirstIndexFirst(x, Char(c));
      assert c !in x;
      FirstIndexAt(x, [c] + y, c);
      SplitWhole(x, Char(c));
      assert s[..|x|] == x && s[|x| + 1..] == y;
      SplitUnfold(s, Char(c), |x|, Split(y, Char(c)));
    }
  }

  /** A join holds a character only when a piece or the separator does. */
  lemma {:induction false} JoinAvoids(parts: seq<string>, sep: string, c: char)
    requires c !in sep
    requires forall k :: 0 <= k < |parts| ==> c !in parts[k]
    ensures c !in Join(parts, sep)
  {
    if |parts| > 1 {
      JoinAvoids(parts[1..], sep, c);
    }
  }

  /** The last piece of a split on c of x + [c] + y, where y holds no c, is y. */
  lemma {:induction false} SplitLast(x: string, y: string, c: char)
    requires c !in y
    ensures var parts := Split(x + [c] + y, Char(c)); parts[|parts| - 1] == y
    decreases |x|
  {
    var s := x + [c] + y;
    var i := FirstIndex(s, Char(c));
    FirstIndexFirst(s, Char(c));
    assert s[|x|] == c;
    var rest := Split(s[i + 1..], Char(c));
    SplitUnfold(s, Char(c), i, rest);
    if i < |x| {
      assert s[i + 1..] == x[i + 1..] + [c] + y;
      SplitLast(x[i + 1..], y, c);
    } else {
      assert s[i + 1..] == y;
      FirstIndexAbsent(y, c);
      SplitWhole(y, Char(c));
    }
    LastOfCons(s[..i], rest);
  }

  lemma LastOfCons(head: string, rest: seq<string>)
    requires |rest| >= 1
    ensures ([head] + rest)[|rest|] == rest[|rest| - 1]
  {
  }

  // ---------------------------------------------------------------------------
  // Numbers

  /** The value of a digit character in a radix up to 36 (0-9, then a-z or A-Z),
      and 36 for a character that is no digit at all. */
  function DigitValue(c: char): (d: nat)
    ensures d <= 36
    ensures d < 10 <==> '0' <= c <= '9'
  {
    if '0' <= c <= '9' then c as int - '0' as int
    else if 'a' <= c <= 'z' then c as int - 'a' as int + 10
    else if 'A' <= c <= 'Z' then c as int - 'A' as int + 10
    else 36
  }

  /** The two bases parseInt reads in here. */
  datatype Base = Decimal | Hexadecimal {
    function Width(): nat { if Decimal? then 10 else 16 }
  }

  /** The length of the longest prefix of s made of digits of the base. */
  function DigitRun(s: string, base: Base): (n: nat)
    ensures n <= |s|
    ensures forall k :: 0 <= k < n ==> DigitValue(s[k]) < base.Width()
    ensures n < |s| ==> DigitValue(s[n]) >= base.Width()
  {
    if |s| == 0 || DigitValue(s[0]) >= base.Width() then 0 else 1 + DigitRun(s[1..], base)
  }

  /** The number a digit string denotes in the base, most significant digit first. */
  function ValueOf(ds: string, base: Base): nat
  {
    if |ds| == 0 then 0
    else
      var high := ValueOf(ds[..|ds| - 1], base);
      (if base.Decimal? then high * 10 else high * 16) + DigitValue(ds[|ds| - 1])
  }

  /** parseInt(s, 10) is Ten; parseInt(s) with the radix left out is Unspecified,
      which also reads a "0x" or "0X" prefix as hexadecimal. */
  datatype Radix = Ten | Unspecified

  /** The text after an optional leading sign. */
  function Unsigned(t: string): (u: string)
    ensures u == t || (|t| > 0 && (t[0] == '-' || t[0] == '+') && u == t[1..])
  {
    if |t| > 0 && (t[0] == '-' || t[0] == '+') then t[1..] else t
  }

  /** Whether u starts with the hexadecimal prefix "0x" or "0X". */
  predicate IsHexStart(u: string) {
    |u| >= 2 && u[0] == '0' && (u[1] == 'x' || u[1] == 'X')
  }

  /** Whether the digits of s, after leading whitespace and a sign, carry the
      hexadecimal prefix that only a call without a radix honours. */
  predicate HasHexPrefix(s: string) {
    IsHexStart(Unsigned(TrimStart(s)))
  }

  /** The longest run of digits at the front of body, read in the radix;
      None when there is no digit. */
  function LeadingNumber(body: string, base: Base): Option<nat>
  {
    var n := DigitRun(body, base);
    if n == 0 then None else Some(ValueOf(body[..n], base))
  }

  /** The unsigned number parseInt reads from the text after the sign. */
  function Magnitude(u: string, radix: Radix): Option<nat>
  {
    if radix == Unspecified && IsHexStart(u) then LeadingNumber(u[2..], Hexadecimal) else LeadingNumber(u, Decimal)
  }

  /** The magnitude with the sign of t applied. */
  function Signed(t: string, magnitude: Option<nat>): Option<int>
  {
    match magnitude
    case None => None
    case Some(m) => Some(if |t| > 0 && t[0] == '-' then -(m as int) else m)
  }

  /** parseInt: skip leading whitespace, read an optional sign, then the longest
      run of digits; None stands for NaN (no digit at all). */
  function ParseInt(s: string, radix: Radix): (r: Option<int>)
    decreases |s|
  {
    if |s| > 0 && IsSpace(s[0]) then ParseInt(s[1..], radix)
    else Signed(s, Magnitude(Unsigned(s), radix))
  }

  /** parseInt reads what is left after the leading whitespace. */
  lemma {:induction false} ParseIntTrimmed(s: string, radix: Radix)
    ensures var t := TrimStart(s); ParseInt(s, radix) == Signed(t, Magnitude(Unsigned(t), radix))
    decreases |s|
  {
    if |s| > 0 && IsSpace(s[0]) {
      ParseIntTrimmed(s[1..], radix);
    }
  }

  /** parseInt of the empty string is NaN. */
  lemma ParseEmpty(radix: Radix)
    ensures ParseInt("", radix) == None
  {
  }

  /** With or without the radix, parseInt reads a string the same way unless the
      string carries a hexadecimal prefix. */
  lemma RadixAgrees(s: string)
    requires !HasHexPrefix(s)
    ensures ParseInt(s, Unspecified) == ParseInt(s, Ten)
  {
    ParseIntTrimmed(s, Unspecified);
    ParseIntTrimmed(s, Ten);
  }

  function DigitChar(d: nat): (c: char)
    requires d < 10
    ensures '0' <= c <= '9' && DigitValue(c) == d
  {
    ('0' as int + d) as char
  }

  /** String(n) for a non-negative integer: its decimal digits without leading zeros. */
  function NatToString(n: nat): (s: string)
    ensures |s| >= 1
    ensures forall k :: 0 <= k < |s| ==> '0' <= s[k] <= '9'
    ensures s[0] == '0' ==> n == 0 && s == "0"
  {
    if n < 10 then [DigitChar(n)] else NatToString(n / 10) + [DigitChar(n % 10)]
  }

  /** String(n) for an integer: a minus sign in front of a negative number. */
  function IntToString(n: int): (s: string)
    ensures |s| >= 1 && (s[0] == '-' <==> n < 0)
    ensures forall k :: 0 <= k < |s| ==> s[k] != ':' && s[k] != '\n' && !IsSpace(s[k])
  {
    if n < 0 then "-" + NatToString(-n) else NatToString(n)
  }

  /** The digits of String(n) denote n. */
  lemma {:induction false} NatToStringValue(n: nat)
    ensures ValueOf(NatToString(n), Decimal) == n
  {
    var s := NatToString(n);
    if n >= 10 {
      NatToStringValue(n / 10);
      assert s[..|s| - 1] == NatToString(n / 10);
    }
  }

  lemma DigitsRun(s: string)
    requires AllDigits(s)
    ensures DigitRun(s, Decimal) == |s|
  {
  }

  /** Every character of d is a decimal digit. */
  predicate AllDigits(d: string) {
    forall k :: 0 <= k < |d| ==> '0' <= d[k] <= '9'
  }

  lemma MagnitudeOfDigits(d: string, radix: Radix)
    requires |d| >= 1 && AllDigits(d)
    ensures Magnitude(d, radix) == Some(ValueOf(d, Decimal))
  {
    assert !IsHexStart(d);
    DigitsRun(d);
    assert d[..|d|] == d;
  }

  /** parseInt composed from its steps: whitespace, sign, digits. */
  lemma ParseInSteps(s: string, u: string, radix: Radix, r: Option<int>, v: nat)
    requires (|s| == 0 || !IsSpace(s[0])) && Unsigned(s) == u
    requires Magnitude(u, radix) == Some(v)
    requires Signed(s, Some(v)) == r
    ensures ParseInt(s, radix) == r
  {
  }

  /** parseInt on a string that starts with a sign or a digit and has the
      digits d after its sign. */
  lemma ParseSignedDigits(s: string, d: string, radix: Radix)
    requires |s| >= 1 && (s[0] == '-' || '0' <= s[0] <= '9')
    requires Unsigned(s) == d && |d| >= 1 && AllDigits(d)
    ensures var v := ValueOf(d, Decimal);
      ParseInt(s, radix) == Some(if s[0] == '-' then -(v as int) else v)
  {
    var v := ValueOf(d, Decimal);
    var r := Some(if s[0] == '-' then -(v as int) else v);
    MagnitudeOfDigits(d, radix);
    assert Signed(s, Some(v)) == r;
    ParseInSteps(s, d, radix, r, v);
  }

  /** parseInt reads back the string a number is written as, with or without
      a radix. */
  lemma ParseIntToString(n: int, radix: Radix)
    ensures ParseInt(IntToString(n), radix) == Some(n)
  {
    var m: nat := if n < 0 then -n else n;
    var d := NatToString(m);
    NatToStringValue(m);
    var s := IntToString(n);
    if n < 0 {
      assert s == "-" + d && s[1..] == d;
    }
    ParseSignedDigits(s, d, radix);
  }

  /** String.prototype.padStart(width, fill) with a one-character fill. */
  function PadStart(s: string, width: nat, fill: char): (r: string)
    ensures |r| == if |s| >= width then |s| else width
    ensures r[|r| - |s|..] == s
    ensures forall k :: 0 <= k < |r| - |s| ==> r[k] == fill
  {
    if |s| >= width then s else seq(width - |s|, _ => fill) + s
  }

  /** A number below 100 padded to two places with zeros is exactly two
      digits. */
  lemma PadTwoDigitsShape(m: nat)
    requires m < 100
    ensures var r := PadStart(NatToString(m), 2, '0'); |r| == 2 && AllDigits(r)
  {
    if m >= 10 {
      assert NatToString(m / 10) == [DigitChar(m / 10)];
    }
  }

  /** parseInt reads a number below 100 back from its two-place padding. */
  lemma PadTwoDigits(m: nat, radix: Radix)
    requires m < 100
    ensures ParseInt(PadStart(NatToString(m), 2, '0'), radix) == Some(m as int)
  {
    var d := NatToString(m);
    var r := PadStart(d, 2, '0');
    if m < 10 {
      assert r == ['0', DigitChar(m)];
      assert ValueOf(r, Decimal) == m by {
        assert r[..1] == ['0'];
        assert ValueOf(['0'], Decimal) == 0 by { assert ['0'][..0] == []; }
      }
      ParseSignedDigits(r, r, radix);
    } else {
      PadTwoDigitsShape(m);
      ParseIntToString(m, radix);
    }
  }

  /** String.prototype.slice(-n) for n > 0: the last n characters, or all of s
      when it is shorter. */
  function TakeLast(s: string, n: nat): (r: string)
    ensures |r| == if |s| < n then |s| else n
    ensures r == s[|s| - |r|..]
  {
    if |s| <= n then s else s[|s| - n..]
  }
}
