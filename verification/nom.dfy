/**
 * The parser combinators the puzzle inputs are read with, as functions from
 * the input to a value and the unconsumed rest: `digit1`, `space1`, `tag`,
 * a character followed by blanks, and collecting a list of results.
 */
module Nom {
  import opened Common

  /** A parser's answer: the value and the unconsumed input, or a failure. */
  datatype Parsed<T> = Ok(value: T, rest: string) | Fail

  /** Length of the longest prefix satisfying `IsDigit`. */
  function DigitRun(s: string): (n: nat)
    ensures n <= |s|
  {
    if |s| == 0 || !IsDigit(s[0]) then 0 else 1 + DigitRun(s[1..])
  }

  lemma {:induction false} DigitRunDigits(s: string)
    ensures AllDigits(s[..DigitRun(s)])
    ensures DigitRun(s) < |s| ==> !IsDigit(s[DigitRun(s)])
  {
    if |s| > 0 && IsDigit(s[0]) {
      DigitRunDigits(s[1..]);
      assert s[..DigitRun(s)] == [s[0]] + s[1..][..DigitRun(s[1..])];
    }
  }

  /** One or more digits, read as a number. */
  function Digit1(s: string): (p: Parsed<nat>)
    ensures p.Ok? ==> |p.rest| < |s|
  {
    var n := DigitRun(s);
    if n == 0 then Fail
    else
      DigitRunDigits(s);
      Ok(DecimalValue(s[..n]), s[n..])
  }

  /** A space or a tab: what `space1` skips. */
  predicate IsBlank(c: char) {
    c == ' ' || c == '\t'
  }

  function BlankRun(s: string): (n: nat)
    ensures n <= |s|
  {
    if |s| == 0 || !IsBlank(s[0]) then 0 else 1 + BlankRun(s[1..])
  }

  /** One or more blanks; the rest of the input after them. */
  function Space1(s: string): (rest: Option<string>)
    ensures rest.Some? ==> |rest.value| < |s|
  {
    var n := BlankRun(s);
    if n == 0 then None else Some(s[n..])
  }

  /** The literal `t` at the front of `s`. */
  function Tag(t: string, s: string): Option<string> {
    if t <= s then Some(s[|t|..]) else None
  }

  /** A separator: the character `c` followed by one or more blanks. */
  function Separator(c: char, s: string): (rest: Option<string>)
    ensures rest.Some? ==> |rest.value| < |s|
  {
    if |s| > 0 && s[0] == c then Space1(s[1..]) else None
  }

  /** All the values, if every parse succeeded (what is left after each
      is dropped); None if any failed. */
  function Collect<T>(ps: seq<Parsed<T>>): (vs: Option<seq<T>>)
    ensures vs.Some? <==> forall k :: 0 <= k < |ps| ==> ps[k].Ok?
    ensures vs.Some? ==> |vs.value| == |ps|
    ensures vs.Some? ==> forall k :: 0 <= k < |ps| ==> vs.value[k] == ps[k].value
  {
    if |ps| == 0 then Some([])
    else
      var rest := Collect(ps[1..]);
      if ps[0].Fail? then None
      else if rest.None? then
        var k :| 0 <= k < |ps| - 1 && !ps[1..][k].Ok?;
        assert !ps[k + 1].Ok?;
        None
      else Some([ps[0].value] + rest.value)
  }

  /** `s` does not start with character `c`. */
  predicate NotLed(s: string, c: char) {
    |s| == 0 || s[0] != c
  }

  lemma {:induction false} DigitRunAppend(a: string, b: string)
    requires AllDigits(a) && (|b| == 0 || !IsDigit(b[0]))
    ensures DigitRun(a + b) == |a|
  {
    if |a| > 0 {
      assert (a + b)[1..] == a[1..] + b;
      DigitRunAppend(a[1..], b);
    } else {
      assert a + b == b;
    }
  }

  lemma Digit1Decimal(n: nat, tail: string)
    requires |tail| == 0 || !IsDigit(tail[0])
    ensures Digit1(Decimal(n) + tail) == Ok(n, tail)
  {
    var d := Decimal(n);
    DigitRunAppend(d, tail);
    assert (d + tail)[..|d|] == d;
    assert (d + tail)[|d|..] == tail;
    DecimalRoundTrip(n);
  }

  lemma Space1One(s: string)
    requires |s| > 0 && !IsBlank(s[0])
    ensures Space1([' '] + s) == Some(s)
  {
    assert ([' '] + s)[1..] == s;
    assert BlankRun(s) == 0;
    assert BlankRun([' '] + s) == 1;
  }

  lemma TagAppend(t: string, x: string)
    ensures Tag(t, t + x) == Some(x)
  {
    assert t <= t + x;
    assert (t + x)[|t|..] == x;
  }

  /** `k` spaces. */
  function Spaces(k: nat): (s: string)
    ensures |s| == k
  {
    if k == 0 then "" else [' '] + Spaces(k - 1)
  }

  lemma {:induction false} BlankRunSpaces(k: nat, s: string)
    requires |s| == 0 || !IsBlank(s[0])
    ensures BlankRun(Spaces(k) + s) == k
  {
    if k > 0 {
      assert (Spaces(k) + s)[1..] == Spaces(k - 1) + s;
      BlankRunSpaces(k - 1, s);
    } else {
      assert Spaces(k) + s == s;
    }
  }

  /** `space1` skips a run of spaces and stops at the first non-blank. */
  lemma Space1Spaces(k: nat, s: string)
    requires k > 0 && (|s| == 0 || !IsBlank(s[0]))
    ensures Space1(Spaces(k) + s) == Some(s)
  {
    BlankRunSpaces(k, s);
    assert (Spaces(k) + s)[k..] == s;
  }

  lemma LeadOfAppend(a: string, b: string)
    requires |a| > 0
    ensures |a + b| > 0 && (a + b)[0] == a[0]
  {
  }

  /** A separator followed by one space and then something else. */
  lemma SeparatorOne(c: char, body: string)
    requires |body| > 0 && !IsBlank(body[0])
    ensures Separator(c, [c, ' '] + body) == Some(body)
  {
    assert ([c, ' '] + body)[1..] == [' '] + body;
    Space1One(body);
  }

  /** A separator ",<space>" or ";<space>" in front of a digit. */
  lemma SeparatorBeforeDigit(c: char, body: string)
    requires |body| > 0 && IsDigit(body[0])
    ensures Separator(c, [c, ' '] + body) == Some(body)
  {
    assert ([c, ' '] + body)[1..] == [' '] + body;
    Space1One(body);
  }

  lemma ConsTail<T>(xs: seq<T>)
    requires |xs| > 0
    ensures [xs[0]] + xs[1..] == xs
  {
  }

  lemma AppendHead<T>(acc: seq<T>, xs: seq<T>)
    requires |xs| > 0
    ensures acc + [xs[0]] + xs[1..] == acc + xs
  {
    assert xs == [xs[0]] + xs[1..];
  }
}
