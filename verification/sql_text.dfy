/**
 * String building blocks used by the DDL and command-template generators:
 * StringBuilder.AppendLine with a fixed one-character newline, string.Join,
 * integer rendering, and the inverse parsers that let the model read a
 * generated list back.
 */
module SqlText {

  /** Environment.NewLine, fixed to a single line feed. */
  const NewLine: string := "\n"

  /** The separator string.Join uses for every column list. */
  const ListSeparator: string := ", "

  /** StringBuilder.AppendLine(s) appends s and a newline. */
  function Line(s: string): string {
    s + NewLine
  }

  /** string.Join(sep, xs). */
  function Join(sep: string, xs: seq<string>): string
    decreases |xs|
  {
    if |xs| == 0 then ""
    else if |xs| == 1 then xs[0]
    else xs[0] + sep + Join(sep, xs[1..])
  }

  /** The concatenation of the strings in xs, in order. */
  function Concat(xs: seq<string>): string
    decreases |xs|
  {
    if xs == [] then "" else Concat(xs[..|xs| - 1]) + xs[|xs| - 1]
  }

  /** Every string in xs followed by a newline (one AppendLine per element). */
  function Lines(xs: seq<string>): string
    decreases |xs|
  {
    if xs == [] then "" else Lines(xs[..|xs| - 1]) + Line(xs[|xs| - 1])
  }

  /** s begins with prefix. */
  predicate StartsWith(s: string, prefix: string) {
    |prefix| <= |s| && s[..|prefix|] == prefix
  }

  /** s ends with suffix. */
  predicate EndsWith(s: string, suffix: string) {
    |suffix| <= |s| && s[|s| - |suffix|..] == suffix
  }

  /** A concatenation starts with its first part and ends with its second. */
  lemma AppendParts(a: string, b: string)
    ensures StartsWith(a + b, a) && EndsWith(a + b, b)
  {
    assert (a + b)[..|a|] == a;
    assert (a + b)[|a + b| - |b|..] == b;
  }

  /** Text that ends with s still does after something is put in front of it. */
  lemma EndsWithPrepend(a: string, b: string, suffix: string)
    requires EndsWith(b, suffix)
    ensures EndsWith(a + b, suffix)
  {
    assert (a + b)[|a + b| - |suffix|..] == b[|b| - |suffix|..];
  }

  /** A joined list ends with its last element. */
  lemma {:induction false} JoinEndsWithLast(sep: string, xs: seq<string>)
    requires xs != []
    ensures EndsWith(Join(sep, xs), xs[|xs| - 1])
    decreases |xs|
  {
    if |xs| > 1 {
      JoinEndsWithLast(sep, xs[1..]);
      EndsWithPrepend(xs[0] + sep, Join(sep, xs[1..]), xs[|xs| - 1]);
    }
  }

  /** The position of the first occurrence of c in s. */
  function IndexOf(s: string, c: char): (i: nat)
    requires c in s
    ensures i < |s| && s[i] == c && c !in s[..i]
  {
    if s[0] == c then 0
    else
      assert s == [s[0]] + s[1..];
      1 + IndexOf(s[1..], c)
  }

  /**
   * Reads back a list written by Join(", ", xs): the text up to the first
   * comma is one element, and the rest (after the comma and its space) is
   * the remaining list.
   */
  function ParseList(s: string): seq<string>
    decreases |s|
  {
    if ',' !in s then [s]
    else
      var i := IndexOf(s, ',');
      [s[..i]] + ParseList(if i + 2 <= |s| then s[i + 2..] else "")
  }

  /** True when no element of xs contains a comma. */
  predicate CommaFree(xs: seq<string>) {
    forall k :: 0 <= k < |xs| ==> ',' !in xs[k]
  }

  lemma IndexOfAfterCommaFree(x: string, rest: string)
    requires ',' !in x
    ensures ',' in x + ", " + rest
    ensures IndexOf(x + ", " + rest, ',') == |x|
  {
    var s := x + ", " + rest;
    assert s[|x|] == ',';
  }

  /** A comma-free first element followed by ", " is read as one element. */
  lemma ParseListCons(x: string, rest: string)
    requires ',' !in x
    ensures ParseList(x + ", " + rest) == [x] + ParseList(rest)
  {
    var s := x + ", " + rest;
    IndexOfAfterCommaFree(x, rest);
    assert s[..|x|] == x;
    assert s[|x| + 2..] == rest;
  }

  /** The elements after the first of a comma-free list are comma-free. */
  lemma CommaFreeTail(xs: seq<string>)
    requires |xs| > 0 && CommaFree(xs)
    ensures CommaFree(xs[1..])
  {
    forall k | 0 <= k < |xs| - 1 ensures ',' !in xs[1..][k] {
      assert xs[1..][k] == xs[k + 1];
    }
  }

  /** Parsing a joined list of two or more reads the first element, then the rest. */
  lemma ParseJoinCons(xs: seq<string>)
    requires |xs| > 1 && ',' !in xs[0]
    requires ParseList(Join(ListSeparator, xs[1..])) == xs[1..]
    ensures ParseList(Join(ListSeparator, xs)) == xs
  {
    var rest := Join(ListSeparator, xs[1..]);
    assert Join(ListSeparator, xs) == xs[0] + ", " + rest;
    ParseListCons(xs[0], rest);
    assert xs == [xs[0]] + xs[1..];
  }

  /** Joining a non-empty comma-free list and parsing it back gives the list. */
  lemma {:induction false} ParseJoin(xs: seq<string>)
    requires |xs| > 0 && CommaFree(xs)
    ensures ParseList(Join(ListSeparator, xs)) == xs
    decreases |xs|
  {
    if |xs| == 1 {
      assert Join(ListSeparator, xs) == xs[0];
      assert ',' !in xs[0];
    } else {
      assert ',' !in xs[0];
      CommaFreeTail(xs);
      ParseJoin(xs[1..]);
      ParseJoinCons(xs);
    }
  }

  /** The decimal digit for 0 <= d < 10. */
  function Digit(d: nat): char
    requires d < 10
  {
    "0123456789"[d]
  }

  /** The value of a decimal digit character. */
  function DigitValue(c: char): nat {
    if '0' <= c <= '9' then (c as int - '0' as int) as nat else 0
  }

  /** Decimal rendering of a natural number, as int.ToString() writes it. */
  function NatToString(n: nat): string
    decreases n
  {
    if n < 10 then [Digit(n)] else NatToString(n / 10) + [Digit(n % 10)]
  }

  /** Decimal rendering of an integer, with a leading minus sign when negative. */
  function IntToString(i: int): string {
    if i < 0 then "-" + NatToString(-i) else NatToString(i)
  }

  /** Reads a string of decimal digits back as a number. */
  function ParseNat(s: string): nat
    decreases |s|
  {
    if s == [] then 0 else 10 * ParseNat(s[..|s| - 1]) + DigitValue(s[|s| - 1])
  }

  /** Reads an optionally signed decimal string back as an integer. */
  function ParseInt(s: string): int {
    if |s| > 0 && s[0] == '-' then 0 - ParseNat(s[1..]) else ParseNat(s)
  }

  lemma DigitRoundTrip(d: nat)
    requires d < 10
    ensures '0' <= Digit(d) <= '9' && DigitValue(Digit(d)) == d
  {
  }

  /** Rendering a natural number produces a non-empty digit string that parses back to it. */
  lemma {:induction false} NatToStringRoundTrip(n: nat)
    ensures |NatToString(n)| > 0 && NatToString(n)[0] != '-'
    ensures ParseNat(NatToString(n)) == n
    decreases n
  {
    DigitRoundTrip(n % 10);
    if n < 10 {
      DigitRoundTrip(n);
    } else {
      NatToStringRoundTrip(n / 10);
      var s := NatToString(n);
      assert s[..|s| - 1] == NatToString(n / 10);
    }
  }

  /** IntToString is inverted by ParseInt, so a rendered length is the declared length. */
  lemma IntToStringRoundTrip(i: int)
    ensures ParseInt(IntToString(i)) == i
  {
    if i < 0 {
      var digits := NatToString(-i);
      NatToStringRoundTrip(-i);
      var s := "-" + digits;
      assert IntToString(i) == s;
      assert s[0] == '-' && s[1..] == digits;
    } else {
      NatToStringRoundTrip(i);
      assert IntToString(i) == NatToString(i);
    }
  }

  /** Appending one more element to a Lines block. */
  lemma LinesSnoc(xs: seq<string>, x: string)
    ensures Lines(xs + [x]) == Lines(xs) + Line(x)
  {
    assert (xs + [x])[..|xs|] == xs;
  }

  /** Appending one more element to a Concat. */
  lemma ConcatSnoc(xs: seq<string>, x: string)
    ensures Concat(xs + [x]) == Concat(xs) + x
  {
    assert (xs + [x])[..|xs|] == xs;
  }

  /** A Lines block of two lists is the block of the first followed by that of the second. */
  lemma {:induction false} LinesAppend(xs: seq<string>, ys: seq<string>)
    ensures Lines(xs + ys) == Lines(xs) + Lines(ys)
    decreases |ys|
  {
    if ys == [] {
      assert xs + ys == xs;
    } else {
      var init := ys[..|ys| - 1];
      var last := ys[|ys| - 1];
      assert ys == init + [last];
      assert xs + ys == (xs + init) + [last];
      LinesSnoc(xs + init, last);
      LinesSnoc(init, last);
      LinesAppend(xs, init);
    }
  }

  /** A sequence is its elements before k, its k-th element and its elements after k. */
  lemma SplitAt<T>(xs: seq<T>, k: nat)
    requires k < |xs|
    ensures xs == xs[..k + 1] + xs[k + 1..] && xs[..k + 1] == xs[..k] + [xs[k]]
  {
  }

  /** Every element of a Lines block is one of its lines, between the elements before and after it. */
  lemma LinesAt(xs: seq<string>, k: nat)
    requires k < |xs|
    ensures Lines(xs) == Lines(xs[..k]) + Line(xs[k]) + Lines(xs[k + 1..])
  {
    var before := xs[..k + 1];
    var after := xs[k + 1..];
    SplitAt(xs, k);
    calc {
      Lines(xs);
      { LinesAppend(before, after); }
      Lines(before) + Lines(after);
      { LinesSnoc(xs[..k], xs[k]); }
      Lines(xs[..k]) + Line(xs[k]) + Lines(after);
    }
  }
}
