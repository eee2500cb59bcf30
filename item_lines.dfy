/** The text of the ordered lines in a submission: each line reads
    "name xqty"; itemsDetail joins them all with " / ", and the order summary
    lists them three to a row. */
module ItemLines {
  import opened JsText
  import opened OrderTotal

  /** `${it.name} x${it.qty}` */
  function Label(it: Item): string
  {
    it.name + " x" + IntToString(it.qty)
  }

  /** items.map(it => `${it.name} x${it.qty}`) */
  function Labels(items: seq<Item>): (ls: seq<string>)
    ensures |ls| == |items|
    ensures forall k :: 0 <= k < |items| ==> ls[k] == Label(items[k])
  {
    if |items| == 0 then [] else [Label(items[0])] + Labels(items[1..])
  }

  /** The labels of two runs of lines are the labels of the first followed by
      those of the second. */
  lemma {:induction false} LabelsAppend(a: seq<Item>, b: seq<Item>)
    ensures Labels(a + b) == Labels(a) + Labels(b)
    decreases |a|
  {
    if |a| == 0 {
      assert a + b == b;
    } else {
      assert (a + b)[1..] == a[1..] + b;
      LabelsAppend(a[1..], b);
      AppendAssociates([Label(a[0])], Labels(a[1..]), Labels(b));
    }
  }

  /** The labels of the lines joined with " / " (itemsDetail). */
  function Detail(items: seq<Item>): string
  {
    Join(Labels(items), " / ")
  }

  /** xs cut into consecutive pieces of n elements, the last one shorter when
      n does not divide |xs|. */
  function Chunks<T>(xs: seq<T>, n: nat): (cs: seq<seq<T>>)
    requires n > 0
    ensures |cs| == 0 <==> |xs| == 0
    ensures forall k :: 0 <= k < |cs| ==> 1 <= |cs[k]| <= n
    ensures forall k :: 0 <= k < |cs| - 1 ==> |cs[k]| == n
    decreases |xs|
  {
    if |xs| == 0 then []
    else if |xs| <= n then [xs]
    else [xs[..n]] + Chunks(xs[n..], n)
  }

  /** The concatenation of a list of runs. */
  function Flatten<T>(xss: seq<seq<T>>): seq<T>
  {
    if |xss| == 0 then [] else xss[0] + Flatten(xss[1..])
  }

  /** Putting the pieces back together gives xs. */
  lemma {:induction false} ChunksFlatten<T>(xs: seq<T>, n: nat)
    requires n > 0
    ensures Flatten(Chunks(xs, n)) == xs
    decreases |xs|
  {
    if |xs| > n {
      var cs := Chunks(xs, n);
      ChunksFlatten(xs[n..], n);
      assert cs[0] == xs[..n] && cs[1..] == Chunks(xs[n..], n);
      assert xs[..n] + xs[n..] == xs;
    } else if |xs| > 0 {
      assert Chunks(xs, n)[1..] == [];
    }
  }

  /** Every element of a piece is an element of xs. */
  lemma {:induction false} ChunkMembers<T>(xs: seq<T>, n: nat, k: nat)
    requires n > 0 && k < |Chunks(xs, n)|
    ensures forall j :: 0 <= j < |Chunks(xs, n)[k]| ==> Chunks(xs, n)[k][j] in xs
    decreases |xs|
  {
    var cs := Chunks(xs, n);
    if |xs| > n {
      if k == 0 {
        assert forall j :: 0 <= j < n ==> cs[0][j] == xs[j];
      } else {
        ChunkMembers(xs[n..], n, k - 1);
        assert cs[k] == Chunks(xs[n..], n)[k - 1];
        assert forall j :: 0 <= j < |xs| - n ==> xs[n..][j] == xs[n + j];
      }
    }
  }

  /** There are ceil(|xs| / n) pieces: enough to hold xs, and one fewer
      would not. */
  lemma {:induction false} ChunkCount<T>(xs: seq<T>, n: nat)
    requires n > 0
    ensures var c := |Chunks(xs, n)|; |xs| <= c * n && (c > 0 ==> (c - 1) * n < |xs|)
    decreases |xs|
  {
    if |xs| > n {
      var c := |Chunks(xs[n..], n)|;
      ChunkCount(xs[n..], n);
      assert |Chunks(xs, n)| == c + 1;
      assert (c + 1) * n == c * n + n;
    }
  }

  /** The texts of the rows: the detail of each piece. */
  function LineTexts(chunks: seq<seq<Item>>): (lines: seq<string>)
    ensures |lines| == |chunks|
    ensures forall k :: 0 <= k < |chunks| ==> lines[k] == Detail(chunks[k])
  {
    if |chunks| == 0 then [] else [Detail(chunks[0])] + LineTexts(chunks[1..])
  }

  /** The rows of the order summary: the lines three at a time, each row the
      detail of its three (or fewer, at the end) lines. */
  method BuildItemLines(items: seq<Item>) returns (lines: seq<string>)
    ensures lines == LineTexts(Chunks(items, 3))
  {
    lines := [];
    ghost var all := LineTexts(Chunks(items, 3));
    var i := 0;
    while i < |items|
      invariant 0 <= i <= |items|
      invariant lines + LineTexts(Chunks(items[i..], 3)) == all
      decreases |items| - i
    {
      var end := if i + 3 < |items| then i + 3 else |items|;
      var next := lines + [Detail(items[i..end])];
      RowStep(items, i, end, lines, next, all);
      lines := next;
      i := end;
    }
    assert items[|items|..] == [];
  }

  /** One pass of the row loop moves the row of items[i..end] from the rows
      still to come to the rows built so far. */
  lemma RowStep(items: seq<Item>, i: nat, end: nat, lines: seq<string>, next: seq<string>,
                all: seq<string>)
    requires i < |items| && end == (if i + 3 < |items| then i + 3 else |items|)
    requires next == lines + [Detail(items[i..end])]
    requires lines + LineTexts(Chunks(items[i..], 3)) == all
    ensures next + LineTexts(Chunks(items[end..], 3)) == all
  {
    var rest := items[i..];
    assert rest[..end - i] == items[i..end];
    assert rest[end - i..] == items[end..];
    if end < |items| {
      assert Chunks(rest, 3) == [items[i..end]] + Chunks(items[end..], 3);
    } else {
      assert rest == items[i..end];
      assert Chunks(rest, 3) == [items[i..end]];
      assert items[end..] == [];
    }
    LinesCons(items[i..end], Chunks(items[end..], 3));
    AppendAssociates(lines, [Detail(items[i..end])], LineTexts(Chunks(items[end..], 3)));
  }

  /** The rows of a piece followed by more pieces. */
  lemma LinesCons(chunk: seq<Item>, rest: seq<seq<Item>>)
    ensures LineTexts([chunk] + rest) == [Detail(chunk)] + LineTexts(rest)
  {
    assert ([chunk] + rest)[1..] == rest;
  }

  /** The rows joined with " / " give back itemsDetail: the rows split the
      detail at every third separator and lose nothing. */
  lemma {:induction false} RowsRejoin(items: seq<Item>)
    ensures Join(LineTexts(Chunks(items, 3)), " / ") == Detail(items)
    decreases |items|
  {
    if |items| == 0 {
      assert Chunks(items, 3) == [];
    } else if |items| <= 3 {
      assert Chunks(items, 3) == [items];
      assert LineTexts([items]) == [Detail(items)];
    } else {
      var head := items[..3];
      var tail := items[3..];
      RowsRejoin(tail);
      LinesCons(head, Chunks(tail, 3));
      var rows := LineTexts(Chunks(tail, 3));
      JoinCons(Detail(head), rows, " / ");
      assert head + tail == items;
      LabelsAppend(head, tail);
      JoinAppend(Labels(head), Labels(tail), " / ");
    }
  }
}
