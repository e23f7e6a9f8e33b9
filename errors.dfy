/** The error aggregate of error.go: an ordered list of failures that is
    itself a failure, rendered as "multiple errors: " followed by the
    messages of its elements joined by "; ". */
module Errors {

  /** A failure. `Leaf` is any failure that is not an aggregate (such as one
      made by fmt.Errorf) and carries its message; `Multi` is the aggregate
      type `errors`. An element of an aggregate may be an aggregate itself.
      There is no nil failure, so an aggregate never holds one. */
  datatype Err = Leaf(msg: string) | Multi(errs: seq<Err>)

  /** The literal that every rendering of an aggregate starts with. */
  const Prefix: string := "multiple errors: "

  /** What stands between the messages of two consecutive elements. */
  const Separator: string := "; "

  // ---------------------------------------------------------------------
  // Joining strings (the behaviour of Go's strings.Join)
  // ---------------------------------------------------------------------

  /** The parts in order, with `sep` between each two consecutive ones:
      no parts give "", one part gives that part. */
  function Join(parts: seq<string>, sep: string): (r: string)
  {
    if |parts| == 0 then ""
    else if |parts| == 1 then parts[0]
    else parts[0] + sep + Join(parts[1..], sep)
  }

  /** The total length of the parts. */
  function SumLengths(parts: seq<string>): (r: nat)
  {
    if |parts| == 0 then 0 else |parts[0]| + SumLengths(parts[1..])
  }

  /** Where part `i` starts in `Join(parts, sep)`: after the `i` earlier
      parts and the `i` separators that follow them. */
  function Offset(parts: seq<string>, sep: string, i: nat): (r: nat)
    requires i <= |parts|
  {
    SumLengths(parts[..i]) + i * |sep|
  }

  /** `needle` occurs in `hay` starting at index `k`. */
  predicate OccursAt(hay: string, needle: string, k: nat)
  {
    k + |needle| <= |hay| && hay[k..k + |needle|] == needle
  }

  /** `needle` occurs somewhere inside `hay` (Go's strings.Contains). */
  predicate Contains(hay: string, needle: string)
  {
    exists k: nat :: k <= |hay| && OccursAt(hay, needle, k)
  }

  lemma SliceOfRightOperand(a: string, b: string, lo: int, hi: int)
    requires |a| <= lo <= hi <= |a| + |b|
    ensures (a + b)[lo..hi] == b[lo - |a|..hi - |a|]
  {
    assert forall k :: 0 <= k < hi - lo ==> (a + b)[lo..hi][k] == b[lo - |a|..hi - |a|][k];
  }

  lemma {:induction false} SumLengthsAppend(parts: seq<string>, x: string)
    ensures SumLengths(parts + [x]) == SumLengths(parts) + |x|
  {
    if |parts| == 0 {
      assert parts + [x] == [x];
    } else {
      assert (parts + [x])[1..] == parts[1..] + [x];
      SumLengthsAppend(parts[1..], x);
    }
  }

  /** Dropping the first part shifts every offset back by the length of
      that part and one separator. */
  lemma OffsetOfTail(parts: seq<string>, sep: string, i: nat)
    requires 1 <= i <= |parts|
    ensures Offset(parts, sep, i) == |parts[0]| + |sep| + Offset(parts[1..], sep, i - 1)
  {
    assert parts[..i][1..] == parts[1..][..i - 1];
    assert i * |sep| == |sep| + (i - 1) * |sep|;
  }

  /** The next part starts one part and one separator further on. */
  lemma OffsetOfNext(parts: seq<string>, sep: string, i: nat)
    requires i < |parts|
    ensures Offset(parts, sep, i + 1) == Offset(parts, sep, i) + |parts[i]| + |sep|
  {
    assert parts[..i + 1] == parts[..i] + [parts[i]];
    SumLengthsAppend(parts[..i], parts[i]);
    assert (i + 1) * |sep| == i * |sep| + |sep|;
  }

  /** The length of a join: the parts plus one separator fewer than parts. */
  lemma {:induction false} JoinLength(parts: seq<string>, sep: string)
    requires |parts| >= 1
    ensures |Join(parts, sep)| == SumLengths(parts) + (|parts| - 1) * |sep|
  {
    if |parts| > 1 {
      JoinLength(parts[1..], sep);
      assert (|parts| - 1) * |sep| == |sep| + (|parts| - 2) * |sep|;
    }
  }

  /** Part `i` stands in the join, unchanged, at `Offset(parts, sep, i)`. */
  lemma {:induction false} JoinPartAt(parts: seq<string>, sep: string, i: nat)
    requires i < |parts|
    ensures Offset(parts, sep, i) + |parts[i]| <= |Join(parts, sep)|
    ensures Join(parts, sep)[Offset(parts, sep, i)..Offset(parts, sep, i) + |parts[i]|] == parts[i]
  {
    if i == 0 {
      assert parts[..0] == [];
      if |parts| > 1 {
        assert Join(parts, sep) == parts[0] + (sep + Join(parts[1..], sep));
      }
    } else {
      var head := parts[0] + sep;
      var rest := Join(parts[1..], sep);
      assert Join(parts, sep) == head + rest;
      JoinPartAt(parts[1..], sep, i - 1);
      OffsetOfTail(parts, sep, i);
      var lo := Offset(parts, sep, i);
      SliceOfRightOperand(head, rest, lo, lo + |parts[i]|);
    }
  }

  /** Right after part `i`, up to the start of part `i + 1`, stands exactly
      the separator. */
  lemma {:induction false} JoinSeparatorAt(parts: seq<string>, sep: string, i: nat)
    requires i + 1 < |parts|
    ensures Offset(parts, sep, i + 1) == Offset(parts, sep, i) + |parts[i]| + |sep|
    ensures Offset(parts, sep, i + 1) <= |Join(parts, sep)|
    ensures Join(parts, sep)[Offset(parts, sep, i) + |parts[i]|..Offset(parts, sep, i + 1)] == sep
  {
    OffsetOfNext(parts, sep, i);
    if i == 0 {
      assert parts[..0] == [];
      assert Join(parts, sep) == parts[0] + sep + Join(parts[1..], sep);
    } else {
      var head := parts[0] + sep;
      var rest := Join(parts[1..], sep);
      assert Join(parts, sep) == head + rest;
      JoinSeparatorAt(parts[1..], sep, i - 1);
      OffsetOfTail(parts, sep, i);
      OffsetOfTail(parts, sep, i + 1);
      SliceOfRightOperand(head, rest, Offset(parts, sep, i) + |parts[i]|, Offset(parts, sep, i + 1));
    }
  }

  /** A non-empty join starts with the first part and ends with the last
      one, so no separator stands at either end. */
  lemma JoinEnds(parts: seq<string>, sep: string)
    requires |parts| >= 1
    ensures |parts[0]| <= |Join(parts, sep)| && Join(parts, sep)[..|parts[0]|] == parts[0]
    ensures |parts[|parts| - 1]| <= |Join(parts, sep)|
    ensures Join(parts, sep)[|Join(parts, sep)| - |parts[|parts| - 1]|..] == parts[|parts| - 1]
  {
    var n := |parts|;
    JoinPartAt(parts, sep, 0);
    assert parts[..0] == [];
    JoinPartAt(parts, sep, n - 1);
    JoinLength(parts, sep);
    assert parts == parts[..n - 1] + [parts[n - 1]];
    SumLengthsAppend(parts[..n - 1], parts[n - 1]);
  }

  lemma ContainsTransitive(a: string, b: string, c: string)
    requires Contains(a, b) && Contains(b, c)
    ensures Contains(a, c)
  {
    var k1: nat :| k1 <= |a| && OccursAt(a, b, k1);
    var k2: nat :| k2 <= |b| && OccursAt(b, c, k2);
    assert a[k1..k1 + |b|] == b && b[k2..k2 + |c|] == c;
    forall j | 0 <= j < |c|
      ensures a[k1 + k2..k1 + k2 + |c|][j] == c[j]
    {
      assert c[j] == b[k2..k2 + |c|][j] == b[k2 + j] == a[k1..k1 + |b|][k2 + j];
    }
    assert OccursAt(a, c, k1 + k2);
  }

  // ---------------------------------------------------------------------
  // Messages of failures
  // ---------------------------------------------------------------------

  /** The message of a failure (its Error() method). */
  function Message(e: Err): (r: string)
    decreases e, 2
  {
    match e
    case Leaf(m) => m
    case Multi(errs) => Render(errs)
  }

  /** The messages of the elements, in list order. */
  function Messages(errs: seq<Err>): (r: seq<string>)
    decreases Multi(errs), 0
  {
    seq(|errs|, i requires 0 <= i < |errs| => Message(errs[i]))
  }

  /** The message of the aggregate `errs`: the prefix, then the element
      messages joined by the separator. */
  function Render(errs: seq<Err>): (r: string)
    decreases Multi(errs), 1
    ensures |Prefix| <= |r| && r[..|Prefix|] == Prefix
  {
    Prefix + Join(Messages(errs), Separator)
  }

  /** `m` is the message of a non-aggregate failure somewhere inside `e`. */
  predicate Mentions(e: Err, m: string)
  {
    match e
    case Leaf(x) => x == m
    case Multi(errs) => exists i :: 0 <= i < |errs| && Mentions(errs[i], m)
  }

  // ---------------------------------------------------------------------
  // The Error() method of error.go
  // ---------------------------------------------------------------------

  /** Error() of any failure: the stored message of a plain failure, the
      rendering of an aggregate. */
  method ErrorMessage(e: Err) returns (s: string)
    ensures s == Message(e)
    decreases e, 1
  {
    match e
    case Leaf(m) =>
      s := m;
    case Multi(errs) =>
      s := AggregateError(errs);
  }

  /** Error() of the aggregate `errs`: fill `errStrings` with the element
      messages, one per element, then join them after the prefix. The
      aggregate is a value and is not changed. */
  method AggregateError(errs: seq<Err>) returns (s: string)
    ensures s == Render(errs)
    decreases Multi(errs), 0
  {
    var errStrings := new string[|errs|];
    for i := 0 to |errs|
      invariant forall k :: 0 <= k < i ==> errStrings[k] == Message(errs[k])
    {
      errStrings[i] := ErrorMessage(errs[i]);
    }
    assert errStrings[..] == Messages(errs);
    s := Prefix + Join(errStrings[..], Separator);
  }

  // ---------------------------------------------------------------------
  // Properties of the rendering
  // ---------------------------------------------------------------------

  /** An empty aggregate renders as the bare prefix. */
  lemma RenderEmpty()
    ensures Render([]) == Prefix
  {
  }

  /** A one-element aggregate renders as the prefix and that element's
      message, without a separator. */
  lemma RenderSingle(e: Err)
    ensures Render([e]) == Prefix + Message(e)
  {
    assert Messages([e]) == [Message(e)];
  }

  /** The rendering of n >= 1 elements is 17 characters of prefix, the
      element messages, and 2 characters for each of the n - 1 separators. */
  lemma RenderLength(errs: seq<Err>)
    requires |errs| >= 1
    ensures |Render(errs)| == 17 + SumLengths(Messages(errs)) + 2 * (|errs| - 1)
  {
    JoinLength(Messages(errs), Separator);
  }

  /** The message of element `i` stands in the rendering right after the
      prefix and the earlier messages and separators. */
  lemma RenderMessageAt(errs: seq<Err>, i: nat)
    requires i < |errs|
    ensures var at := |Prefix| + Offset(Messages(errs), Separator, i);
      at + |Message(errs[i])| <= |Render(errs)| &&
      Render(errs)[at..at + |Message(errs[i])|] == Message(errs[i])
  {
    var parts := Messages(errs);
    JoinPartAt(parts, Separator, i);
    var o := Offset(parts, Separator, i);
    SliceOfRightOperand(Prefix, Join(parts, Separator), |Prefix| + o, |Prefix| + o + |parts[i]|);
  }

  /** Consecutive element messages are separated by exactly "; ". */
  lemma RenderSeparatorAt(errs: seq<Err>, i: nat)
    requires i + 1 < |errs|
    ensures var parts := Messages(errs);
      Offset(parts, Separator, i + 1) == Offset(parts, Separator, i) + |parts[i]| + |Separator| &&
      |Prefix| + Offset(parts, Separator, i + 1) <= |Render(errs)| &&
      Render(errs)[|Prefix| + Offset(parts, Separator, i) + |parts[i]|..|Prefix| + Offset(parts, Separator, i + 1)]
        == Separator
  {
    var parts := Messages(errs);
    JoinSeparatorAt(parts, Separator, i);
    SliceOfRightOperand(Prefix, Join(parts, Separator),
      |Prefix| + Offset(parts, Separator, i) + |parts[i]|, |Prefix| + Offset(parts, Separator, i + 1));
  }

  /** A non-empty rendering continues the prefix with the first message and
      ends with the last one: no separator at either end. */
  lemma RenderEnds(errs: seq<Err>)
    requires |errs| >= 1
    ensures var first := Message(errs[0]);
      |Prefix| + |first| <= |Render(errs)| && Render(errs)[..|Prefix| + |first|] == Prefix + first
    ensures var last := Message(errs[|errs| - 1]);
      |last| <= |Render(errs)| && Render(errs)[|Render(errs)| - |last|..] == last
  {
    var parts := Messages(errs);
    var j := Join(parts, Separator);
    JoinEnds(parts, Separator);
    assert Render(errs)[..|Prefix| + |parts[0]|] == Prefix + j[..|parts[0]|];
    assert Render(errs)[|Render(errs)| - |parts[|parts| - 1]|..] == j[|j| - |parts[|parts| - 1]|..];
  }

  /** Every element's message is contained in the rendering: the check the
      tests make on aggregated failures. */
  lemma RenderContainsMessage(errs: seq<Err>, i: nat)
    requires i < |errs|
    ensures Contains(Render(errs), Message(errs[i]))
  {
    RenderMessageAt(errs, i);
    assert OccursAt(Render(errs), Message(errs[i]), |Prefix| + Offset(Messages(errs), Separator, i));
  }

  /** The message of every plain failure nested anywhere inside a failure is
      contained in that failure's message. */
  lemma {:induction false} MessageContainsMention(e: Err, m: string)
    requires Mentions(e, m)
    ensures Contains(Message(e), m)
  {
    match e
    case Leaf(x) =>
      assert OccursAt(Message(e), m, 0);
    case Multi(errs) =>
      var i :| 0 <= i < |errs| && Mentions(errs[i], m);
      MessageContainsMention(errs[i], m);
      RenderContainsMessage(errs, i);
      ContainsTransitive(Message(e), Message(errs[i]), m);
  }

  /** The two failures of the equality test, aggregated in operand order. */
  lemma RenderBrokenMeh()
    ensures Render([Leaf("broken"), Leaf("meh")]) == "multiple errors: broken; meh"
    ensures Contains(Render([Leaf("broken"), Leaf("meh")]), "broken")
    ensures Contains(Render([Leaf("broken"), Leaf("meh")]), "meh")
  {
    var errs := [Leaf("broken"), Leaf("meh")];
    assert Messages(errs) == ["broken", "meh"];
    RenderContainsMessage(errs, 0);
    RenderContainsMessage(errs, 1);
  }
}
