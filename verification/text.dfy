/** String helpers with the behaviour of the java.lang.String and Integer
    operations the register code relies on: decimal printing, zero padding,
    replaceFirst with a literal pattern, and split on a one-character
    separator. */
module Text {
  import opened Optional

  function DigitChar(d: nat): (c: char)
    requires d < 10
    ensures '0' <= c <= '9'
  {
    ('0' as int + d) as char
  }

  function DigitValue(c: char): nat
    requires '0' <= c <= '9'
  {
    (c as int - '0' as int) as nat
  }

  /** Integer.toString of a non-negative int. */
  function DecimalText(n: nat): (s: string)
    ensures 1 <= |s|
    ensures forall i :: 0 <= i < |s| ==> '0' <= s[i] <= '9'
    decreases n
  {
    if n < 10 then [DigitChar(n)] else DecimalText(n / 10) + [DigitChar(n % 10)]
  }

  /** The number a string of decimal digits denotes. */
  function DecimalValue(s: string): nat
    requires forall i :: 0 <= i < |s| ==> '0' <= s[i] <= '9'
  {
    if s == [] then 0 else DecimalValue(s[..|s| - 1]) * 10 + DigitValue(s[|s| - 1])
  }

  /** Printing a number and reading it back gives the number. */
  lemma {:induction false} DecimalRoundTrip(n: nat)
    ensures DecimalValue(DecimalText(n)) == n
    decreases n
  {
    var s := DecimalText(n);
    if n >= 10 {
      DecimalRoundTrip(n / 10);
      assert s[..|s| - 1] == DecimalText(n / 10);
    }
  }

  /** Different numbers print differently. */
  lemma DecimalTextInjective(m: nat, n: nat)
    requires m != n
    ensures DecimalText(m) != DecimalText(n)
  {
    DecimalRoundTrip(m);
    DecimalRoundTrip(n);
  }

  /** Left-pads with zeros up to `width` characters, as a numeric field of a
      date pattern does. */
  function ZeroPad(s: string, width: nat): (r: string)
    ensures |r| == if |s| < width then width else |s|
    ensures forall i :: 0 <= i < |r| ==> r[i] == if i < |r| - |s| then '0' else s[i - (|r| - |s|)]
  {
    if |s| < width then seq(width - |s|, _ => '0') + s else s
  }

  predicate OccursAt(s: string, pat: string, i: nat) {
    i + |pat| <= |s| && s[i..i + |pat|] == pat
  }

  /** The first position at or after `from` where `pat` occurs, if any. */
  function IndexOfFrom(s: string, pat: string, from: nat): (r: Option<nat>)
    ensures r.Some? ==> from <= r.value && OccursAt(s, pat, r.value)
    ensures r.Some? ==> forall j :: from <= j < r.value ==> !OccursAt(s, pat, j)
    ensures r.None? ==> forall j :: from <= j ==> !OccursAt(s, pat, j)
    decreases |s| - from
  {
    if from + |pat| > |s| then None
    else if OccursAt(s, pat, from) then Some(from)
    else IndexOfFrom(s, pat, from + 1)
  }

  /** String.replaceFirst with a pattern free of regular-expression
      metacharacters: the first occurrence of `pat` is replaced by `rep`. */
  function ReplaceFirst(s: string, pat: string, rep: string): (r: string)
    ensures IndexOfFrom(s, pat, 0).None? ==> r == s
    ensures IndexOfFrom(s, pat, 0).Some? ==> |r| == |s| - |pat| + |rep|
    ensures IndexOfFrom(s, pat, 0).Some? ==>
      var i := IndexOfFrom(s, pat, 0).value;
      && r[..i] == s[..i]
      && r[i..i + |rep|] == rep
      && r[i + |rep|..] == s[i + |pat|..]
  {
    match IndexOfFrom(s, pat, 0)
    case None => s
    case Some(i) => s[..i] + rep + s[i + |pat|..]
  }

  /** All pieces of `s` between occurrences of `sep`, empty pieces included. */
  function Segments(s: string, sep: char): (r: seq<string>)
    ensures 1 <= |r|
    ensures sep !in s ==> r == [s]
  {
    if s == [] then [""]
    else if s[0] == sep then [""] + Segments(s[1..], sep)
    else
      var rest := Segments(s[1..], sep);
      assert sep !in s ==> [s[0]] + s[1..] == s;
      [[s[0]] + rest[0]] + rest[1..]
  }

  function StripTrailingEmpty(r: seq<string>): (t: seq<string>)
    ensures |t| <= |r| && t == r[..|t|]
    ensures t != [] ==> t[|t| - 1] != ""
  {
    if r != [] && r[|r| - 1] == "" then StripTrailingEmpty(r[..|r| - 1]) else r
  }

  /** String.split with a one-character, non-special separator: a string
      without the separator is returned whole; otherwise its pieces, with
      trailing empty pieces removed. */
  function JavaSplit(s: string, sep: char): (r: seq<string>)
    ensures sep !in s ==> r == [s]
  {
    if sep !in s then [s] else StripTrailingEmpty(Segments(s, sep))
  }

  /** Splitting `head + sep + tail`, where the tail is non-empty and free of
      the separator, gives the pieces of the head followed by the tail. */
  lemma {:induction false} SegmentsAppend(head: string, sep: char, tail: string)
    requires sep !in tail
    ensures Segments(head + [sep] + tail, sep) == Segments(head, sep) + [tail]
    decreases |head|
  {
    if head == [] {
      assert head + [sep] + tail == [sep] + tail;
      assert ([sep] + tail)[1..] == tail;
    } else {
      var s := head + [sep] + tail;
      assert s[0] == head[0];
      assert s[1..] == head[1..] + [sep] + tail;
      SegmentsAppend(head[1..], sep, tail);
    }
  }

  lemma SplitLabelled(head: string, sep: char, tail: string)
    requires tail != [] && sep !in tail
    ensures JavaSplit(head + [sep] + tail, sep) == Segments(head, sep) + [tail]
    ensures |JavaSplit(head + [sep] + tail, sep)| >= 2
    ensures JavaSplit(head + [sep] + tail, sep)[0] == Segments(head, sep)[0]
    ensures sep !in head ==> JavaSplit(head + [sep] + tail, sep) == [head, tail]
  {
    var s := head + [sep] + tail;
    assert s[|head|] == sep;
    SegmentsAppend(head, sep, tail);
    var r := Segments(head, sep) + [tail];
    assert r[|r| - 1] == tail != "";
    assert StripTrailingEmpty(r) == r;
    assert JavaSplit(s, sep) == r;
  }

  /** The items joined with `sep` between neighbours. */
  function Join(items: seq<string>, sep: string): string {
    if items == [] then ""
    else if |items| == 1 then items[0]
    else Join(items[..|items| - 1], sep) + sep + items[|items| - 1]
  }

  /** One step of the register's string building: the separator goes in
      only when the text so far is non-empty. */
  function AppendAfterSeparator(acc: string, sep: string, item: string): string {
    (if |acc| > 0 then acc + sep else acc) + item
  }

  /** The items folded in with AppendAfterSeparator, left to right. */
  function FoldJoin(items: seq<string>, sep: string): string {
    if items == [] then ""
    else AppendAfterSeparator(FoldJoin(items[..|items| - 1], sep), sep, items[|items| - 1])
  }

  /** Folding one more item in. */
  lemma FoldJoinSnoc(items: seq<string>, sep: string, item: string)
    ensures FoldJoin(items + [item], sep) == AppendAfterSeparator(FoldJoin(items, sep), sep, item)
  {
    assert (items + [item])[..|items|] == items;
  }

  /** When no item is empty, folding is joining, and the result is empty
      exactly when there are no items. */
  lemma {:induction false} FoldJoinIsJoin(items: seq<string>, sep: string)
    requires forall i :: 0 <= i < |items| ==> items[i] != ""
    ensures FoldJoin(items, sep) == Join(items, sep)
    ensures FoldJoin(items, sep) == "" <==> items == []
  {
    if items != [] {
      var init := items[..|items| - 1];
      FoldJoinIsJoin(init, sep);
      assert items[|items| - 1] != "";
    }
  }

  /** The fold is empty exactly when every item is empty. */
  lemma {:induction false} FoldJoinEmpty(items: seq<string>, sep: string)
    ensures FoldJoin(items, sep) == "" <==> forall i :: 0 <= i < |items| ==> items[i] == ""
  {
    if items != [] {
      var init := items[..|items| - 1];
      FoldJoinEmpty(init, sep);
      assert forall i :: 0 <= i < |init| ==> init[i] == items[i];
    }
  }
}
