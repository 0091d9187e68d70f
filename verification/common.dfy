/**
 * Shared vocabulary of the puzzle models: an optional value, decimal
 * numerals, splitting a line at white space, and sums
 * and products of natural numbers.
 */
module Common {

  datatype Option<T> = None | Some(value: T)

  // ---------------------------------------------------------------------
  // Decimal numerals
  // ---------------------------------------------------------------------

  /** An ASCII decimal digit ('0'..'9'); this is what `char::is_digit(10)`
      and the regular-expression class `[0-9]` accept. */
  predicate IsDigit(c: char) {
    '0' <= c <= '9'
  }

  function DigitValue(c: char): (d: nat)
    requires IsDigit(c)
    ensures d < 10
  {
    (c as int) - ('0' as int)
  }

  function DigitChar(d: nat): (c: char)
    requires d < 10
    ensures IsDigit(c) && DigitValue(c) == d
  {
    (('0' as int) + d) as char
  }

  predicate AllDigits(s: string) {
    forall i :: 0 <= i < |s| ==> IsDigit(s[i])
  }

  /** A non-empty run of digits: the shape `digit1` accepts. */
  predicate IsNumeral(s: string) {
    |s| > 0 && AllDigits(s)
  }

  function Pow10(k: nat): (p: nat)
    ensures p >= 1
  {
    if k == 0 then 1 else 10 * Pow10(k - 1)
  }

  /** The value of a numeral, most significant digit first. */
  function DecimalValue(s: string): nat
    requires AllDigits(s)
  {
    if |s| == 0 then 0 else 10 * DecimalValue(s[..|s| - 1]) + DigitValue(s[|s| - 1])
  }

  /** The shortest numeral of `n`, as Rust's `to_string` prints it. */
  function Decimal(n: nat): (s: string)
    ensures IsNumeral(s)
    ensures |s| > 1 ==> s[0] != '0'
  {
    if n < 10 then [DigitChar(n)] else Decimal(n / 10) + [DigitChar(n % 10)]
  }

  /** Printing a number and reading it back gives the number. */
  lemma {:induction false} DecimalRoundTrip(n: nat)
    ensures DecimalValue(Decimal(n)) == n
  {
    if n >= 10 {
      var s := Decimal(n);
      assert s[..|s| - 1] == Decimal(n / 10);
      DecimalRoundTrip(n / 10);
    }
  }

  lemma {:induction false} AllDigitsAppend(a: string, b: string)
    requires AllDigits(a) && AllDigits(b)
    ensures AllDigits(a + b)
  {
    var ab := a + b;
    forall i | 0 <= i < |ab| ensures IsDigit(ab[i]) {
      if i < |a| { assert ab[i] == a[i]; } else { assert ab[i] == b[i - |a|]; }
    }
  }

  lemma ShiftStep(x: nat, p: nat, y: nat, d: nat)
    ensures 10 * (x * p + y) + d == x * (10 * p) + (10 * y + d)
  {
  }

  /** Reading the concatenation of two numerals shifts the first one left
      by the length of the second. */
  lemma {:induction false} DecimalValueAppend(a: string, b: string)
    requires AllDigits(a) && AllDigits(b)
    ensures AllDigits(a + b)
    ensures DecimalValue(a + b) == DecimalValue(a) * Pow10(|b|) + DecimalValue(b)
  {
    AllDigitsAppend(a, b);
    var ab := a + b;
    if |b| > 0 {
      var b' := b[..|b| - 1];
      var d := DigitValue(b[|b| - 1]);
      assert ab[..|ab| - 1] == a + b';
      assert ab[|ab| - 1] == b[|b| - 1];
      DecimalValueAppend(a, b');
      assert DecimalValue(ab) == 10 * DecimalValue(a + b') + d;
      assert DecimalValue(b) == 10 * DecimalValue(b') + d;
      ShiftStep(DecimalValue(a), Pow10(|b'|), DecimalValue(b'), d);
    } else {
      assert ab == a;
    }
  }

  /** Reading a token as an unsigned number: fails on the empty token and on
      any character that is not a digit. */
  function ParseNat(s: string): (r: Option<nat>)
    ensures r.Some? <==> IsNumeral(s)
  {
    if IsNumeral(s) then Some(DecimalValue(s)) else None
  }

  /** Every printed number parses back to itself. */
  lemma ParseDecimal(n: nat)
    ensures ParseNat(Decimal(n)) == Some(n)
  {
    DecimalRoundTrip(n);
  }

  /** Rust's `from_str_radix(s, 10)` for an unsigned type (also what
      `str::parse` does): an optional '+' and then one or more digits. */
  function ParseUnsigned(s: string): (r: Option<nat>)
    ensures r.Some? <==> IsNumeral(s) || (|s| > 1 && s[0] == '+' && IsNumeral(s[1..]))
  {
    if |s| > 0 && s[0] == '+' then ParseNat(s[1..]) else ParseNat(s)
  }

  lemma ParseUnsignedDecimal(n: nat)
    ensures ParseUnsigned(Decimal(n)) == Some(n)
  {
    ParseDecimal(n);
  }

  // ---------------------------------------------------------------------
  // Splitting at whitespace (`str::split_whitespace`)
  // ---------------------------------------------------------------------

  /** The ASCII white-space characters of `char::is_whitespace`: space,
      tab, line feed, vertical tab, form feed and carriage return. */
  predicate IsSpace(c: char) {
    c == ' ' || c == '\t' || c == '\n' || c == '\U{0B}' || c == '\U{0C}' || c == '\r'
  }

  predicate NoSpace(w: string) {
    forall i :: 0 <= i < |w| ==> !IsSpace(w[i])
  }

  predicate IsWord(w: string) {
    |w| > 0 && NoSpace(w)
  }

  /** Length of the longest space-free prefix. */
  function WordLength(s: string): (n: nat)
    ensures n <= |s|
    ensures NoSpace(s[..n])
    ensures n < |s| ==> IsSpace(s[n])
  {
    if |s| == 0 || IsSpace(s[0]) then 0
    else
      var m := WordLength(s[1..]);
      assert s[..1 + m] == [s[0]] + s[1..][..m];
      1 + m
  }

  /** The maximal space-free runs of `s`, left to right. */
  function Words(s: string): (ws: seq<string>)
    ensures forall k :: 0 <= k < |ws| ==> IsWord(ws[k])
    decreases |s|
  {
    if |s| == 0 then []
    else if IsSpace(s[0]) then Words(s[1..])
    else
      var n := WordLength(s);
      [s[..n]] + Words(s[n..])
  }

  /** Words separated by single spaces. */
  function Unwords(ws: seq<string>): string {
    if |ws| == 0 then "" else if |ws| == 1 then ws[0] else ws[0] + " " + Unwords(ws[1..])
  }

  lemma {:induction false} WordLengthAppend(a: string, c: char, b: string)
    requires NoSpace(a) && IsSpace(c)
    ensures WordLength(a + [c] + b) == |a|
  {
    var s := a + [c] + b;
    if |a| == 0 {
      assert s[0] == c;
    } else {
      assert s[0] == a[0] && s[1..] == a[1..] + [c] + b;
      WordLengthAppend(a[1..], c, b);
    }
  }

  /** A white-space character separates the words on its two sides. */
  lemma {:induction false} WordsAppend(a: string, c: char, b: string)
    requires IsSpace(c)
    ensures Words(a + [c] + b) == Words(a) + Words(b)
    decreases |a|
  {
    var s := a + [c] + b;
    if |a| == 0 {
      assert s[0] == c && s[1..] == b;
    } else if IsSpace(a[0]) {
      assert s[0] == a[0] && s[1..] == a[1..] + [c] + b;
      WordsAppend(a[1..], c, b);
    } else {
      var n := WordLength(a);
      if n == |a| {
        assert a[..n] == a;
        WordLengthAppend(a, c, b);
        assert s[..n] == a && s[n..] == [c] + b;
        assert ([c] + b)[0] == c && ([c] + b)[1..] == b;
        assert a[n..] == [];
      } else {
        assert WordLength(s) == n by {
          assert s == a + ([c] + b);
          WordLengthPrefix(a, [c] + b);
        }
        assert s[..n] == a[..n];
        assert s[n..] == a[n..] + [c] + b;
        WordsAppend(a[n..], c, b);
      }
    }
  }

  lemma {:induction false} WordLengthPrefix(a: string, b: string)
    requires WordLength(a) < |a|
    ensures WordLength(a + b) == WordLength(a)
  {
    var s := a + b;
    if !IsSpace(a[0]) {
      assert s[0] == a[0] && s[1..] == a[1..] + b;
      WordLengthPrefix(a[1..], b);
    } else {
      assert s[0] == a[0];
    }
  }

  lemma {:induction false} WordsOfWord(w: string)
    requires IsWord(w)
    ensures Words(w) == [w]
  {
    var n := WordLength(w);
    assert n == |w|;
    assert w[..n] == w;
    assert w[n..] == [];
  }

  /** Joining words with spaces and splitting at white space is a round trip. */
  lemma {:induction false} WordsUnwords(ws: seq<string>)
    requires forall k :: 0 <= k < |ws| ==> IsWord(ws[k])
    ensures Words(Unwords(ws)) == ws
  {
    if |ws| == 1 {
      WordsOfWord(ws[0]);
    } else if |ws| > 1 {
      WordsUnwords(ws[1..]);
      WordsOfWord(ws[0]);
      assert Unwords(ws) == ws[0] + [' '] + Unwords(ws[1..]);
      WordsAppend(ws[0], ' ', Unwords(ws[1..]));
      assert ws == [ws[0]] + ws[1..];
    }
  }

  // ---------------------------------------------------------------------
  // Byte offsets in UTF-8
  // ---------------------------------------------------------------------

  /** The number of bytes of a character in UTF-8, the encoding of Rust
      strings. */
  function Utf8Length(c: char): (n: nat)
    ensures 1 <= n <= 4
    ensures n == 1 <==> c as int < 0x80
  {
    if c as int < 0x80 then 1 else if c as int < 0x800 then 2 else if c as int < 0x1_0000 then 3 else 4
  }

  /** The byte offset of character `i` of `s` in UTF-8: where a string
      search or a regular-expression match starting at character `i`
      reports its start. */
  function ByteOffset(s: string, i: nat): (b: nat)
    requires i <= |s|
    ensures i <= b
  {
    if i == 0 then 0 else ByteOffset(s, i - 1) + Utf8Length(s[i - 1])
  }

  /** Over ASCII characters bytes and characters advance together. */
  lemma {:induction false} ByteOffsetAscii(s: string, i: nat, j: nat)
    requires i <= j <= |s|
    requires forall k :: i <= k < j ==> s[k] as int < 0x80
    ensures ByteOffset(s, j) == ByteOffset(s, i) + (j - i)
    decreases j - i
  {
    if i < j {
      ByteOffsetAscii(s, i, j - 1);
    }
  }

  /** Later characters start at later bytes. */
  lemma {:induction false} ByteOffsetIncreasing(s: string, i: nat, j: nat)
    requires i < j <= |s|
    ensures ByteOffset(s, i) < ByteOffset(s, j)
    decreases j - i
  {
    if i + 1 < j {
      ByteOffsetIncreasing(s, i, j - 1);
    }
  }

  /** Byte offsets order positions as character indices do. */
  lemma ByteOffsetOrder(s: string, i: nat, j: nat)
    requires i <= |s| && j <= |s|
    ensures i < j <==> ByteOffset(s, i) < ByteOffset(s, j)
    ensures i == j <==> ByteOffset(s, i) == ByteOffset(s, j)
  {
    if i < j {
      ByteOffsetIncreasing(s, i, j);
    } else if j < i {
      ByteOffsetIncreasing(s, j, i);
    }
  }

  // ---------------------------------------------------------------------
  // Sums and products
  // ---------------------------------------------------------------------

  function Sum(xs: seq<nat>): nat {
    if |xs| == 0 then 0 else xs[0] + Sum(xs[1..])
  }

  function Product(xs: seq<nat>): nat {
    if |xs| == 0 then 1 else xs[0] * Product(xs[1..])
  }

  /** Every term is at most the sum. */
  lemma {:induction false} SumBoundsEach(xs: seq<nat>, k: nat)
    requires k < |xs|
    ensures xs[k] <= Sum(xs)
  {
    if k > 0 {
      SumBoundsEach(xs[1..], k - 1);
    }
  }

  /** Summing splits over concatenation. */
  lemma {:induction false} SumAppend(xs: seq<nat>, ys: seq<nat>)
    ensures Sum(xs + ys) == Sum(xs) + Sum(ys)
  {
    if |xs| > 0 {
      assert (xs + ys)[1..] == xs[1..] + ys;
      SumAppend(xs[1..], ys);
    } else {
      assert xs + ys == ys;
    }
  }
}
