/**
 * Day 3: the engine schematic. Every character of a (trimmed) line that
 * is neither '.' nor a digit is a symbol; every maximal run of digits is a
 * number occupying a box one line high. A number and a symbol are
 * neighbours when the symbol lies in the box widened by one cell on each
 * side. Part one sums the numbers that have a neighbouring symbol; part
 * two sums, over the '*' symbols with exactly two such numbers around
 * them, the product of the two.
 */
module Day3 {
  import opened Common

  /** A character and its position: column `x`, line `y`. */
  datatype Point = Point(chr: char, x: nat, y: nat)

  /** A number between its first and last column on one line; the corner
      points carry a blank character. */
  datatype NumberBox = NumberBox(first: Point, last: Point, value: nat)

  // ---------------------------------------------------------------------
  // Trimming a line (`str::trim`)
  // ---------------------------------------------------------------------

  function TrimStart(s: string): (r: string)
    ensures |r| <= |s| && r == s[|s| - |r|..]
    ensures |r| == 0 || !IsSpace(r[0])
    ensures forall k :: 0 <= k < |s| - |r| ==> IsSpace(s[k])
  {
    if |s| > 0 && IsSpace(s[0]) then
      var r := TrimStart(s[1..]);
      assert s[1..][|s| - 1 - |r|..] == s[|s| - |r|..];
      assert forall k :: 0 <= k < |s| - |r| ==> IsSpace(s[k]) by {
        forall k | 0 < k < |s| - |r| ensures IsSpace(s[k]) {
          assert s[k] == s[1..][k - 1];
        }
      }
      r
    else s
  }

  function TrimEnd(s: string): (r: string)
    ensures |r| <= |s| && r == s[..|r|]
    ensures |r| == 0 || !IsSpace(r[|r| - 1])
    ensures forall k :: |r| <= k < |s| ==> IsSpace(s[k])
  {
    if |s| > 0 && IsSpace(s[|s| - 1]) then TrimEnd(s[..|s| - 1]) else s
  }

  /** White space removed from both ends. */
  function Trim(s: string): (r: string)
    ensures |r| == 0 || (!IsSpace(r[0]) && !IsSpace(r[|r| - 1]))
  {
    TrimEnd(TrimStart(s))
  }

  lemma TrimStartKeeps(s: string)
    requires |s| == 0 || !IsSpace(s[0])
    ensures TrimStart(s) == s
  {
  }

  lemma TrimEndKeeps(s: string)
    requires |s| == 0 || !IsSpace(s[|s| - 1])
    ensures TrimEnd(s) == s
  {
  }

  /** Trimming a trimmed line changes nothing. */
  lemma TrimIdempotent(s: string)
    ensures Trim(Trim(s)) == Trim(s)
  {
    var t := Trim(s);
    TrimStartKeeps(t);
    TrimEndKeeps(t);
  }

  // ---------------------------------------------------------------------
  // Symbols
  // ---------------------------------------------------------------------

  predicate IsSymbol(c: char) {
    c != '.' && !IsDigit(c)
  }

  /** The symbols of line `y` (already trimmed) from column `i` on. */
  function SymbolsFrom(s: string, y: nat, i: nat): (ps: seq<Point>)
    requires i <= |s|
    ensures forall k :: 0 <= k < |ps| ==>
      ps[k].y == y && i <= ps[k].x < |s| && ps[k].chr == s[ps[k].x] && IsSymbol(ps[k].chr)
    ensures forall j :: i <= j < |s| && IsSymbol(s[j]) ==> Point(s[j], j, y) in ps
    ensures forall k :: 0 < k < |ps| ==> ps[k - 1].x < ps[k].x
    decreases |s| - i
  {
    if i == |s| then []
    else
      var rest := SymbolsFrom(s, y, i + 1);
      if IsSymbol(s[i]) then
        SymbolsCons(s, y, i, rest);
        [Point(s[i], i, y)] + rest
      else rest
  }

  /** Well-placed symbols behind a symbol at column `i` stay well placed. */
  predicate PlacedFrom(s: string, y: nat, i: nat, ps: seq<Point>) {
    && (forall k :: 0 <= k < |ps| ==> ps[k].y == y && i <= ps[k].x < |s| && ps[k].chr == s[ps[k].x] && IsSymbol(ps[k].chr))
    && (forall k :: 0 < k < |ps| ==> ps[k - 1].x < ps[k].x)
  }

  lemma SymbolsCons(s: string, y: nat, i: nat, rest: seq<Point>)
    requires i < |s| && IsSymbol(s[i]) && PlacedFrom(s, y, i + 1, rest)
    requires forall j :: i + 1 <= j < |s| && IsSymbol(s[j]) ==> Point(s[j], j, y) in rest
    ensures PlacedFrom(s, y, i, [Point(s[i], i, y)] + rest)
    ensures forall j :: i <= j < |s| && IsSymbol(s[j]) ==> Point(s[j], j, y) in [Point(s[i], i, y)] + rest
  {
    var ps := [Point(s[i], i, y)] + rest;
    forall k | 0 < k < |ps| ensures ps[k - 1].x < ps[k].x {
      if k > 1 {
        assert ps[k - 1] == rest[k - 2] && ps[k] == rest[k - 1];
      }
    }
  }

  /** `p` names a symbol of the schematic at its place. */
  predicate SymbolAt(lines: seq<string>, p: Point) {
    p.y < |lines| && p.x < |Trim(lines[p.y])| && Trim(lines[p.y])[p.x] == p.chr && IsSymbol(p.chr)
  }

  /** Line before column: the order the schematic is read in. */
  predicate Before(p: Point, q: Point) {
    p.y < q.y || (p.y == q.y && p.x < q.x)
  }

  function SymbolsOfLines(lines: seq<string>, l: nat): (ps: seq<Point>)
    requires l <= |lines|
    ensures forall p :: p in ps <==> l <= p.y && SymbolAt(lines, p)
    ensures forall k :: 0 <= k < |ps| ==> l <= ps[k].y
    ensures forall k :: 0 < k < |ps| ==> Before(ps[k - 1], ps[k])
    decreases |lines| - l
  {
    if l == |lines| then []
    else
      var here := SymbolsFrom(Trim(lines[l]), l, 0);
      var rest := SymbolsOfLines(lines, l + 1);
      forall p | SymbolAt(lines, p) && p.y == l ensures p in here {
        assert Point(Trim(lines[l])[p.x], p.x, l) == p;
      }
      here + rest
  }

  // ---------------------------------------------------------------------
  // Numbers
  // ---------------------------------------------------------------------

  /** The end of the run of digits that starts at `i`. */
  function RunEnd(s: string, i: nat): (e: nat)
    requires i <= |s|
    ensures i <= e <= |s|
    ensures AllDigits(s[i..e])
    ensures e == |s| || !IsDigit(s[e])
    decreases |s| - i
  {
    if i < |s| && IsDigit(s[i]) then
      var e := RunEnd(s, i + 1);
      assert s[i..e] == [s[i]] + s[i + 1..e];
      e
    else i
  }

  /** `b` is a maximal run of digits of line `y` (the line `s`, trimmed),
      with the value the digits spell. */
  predicate RunBox(s: string, y: nat, b: NumberBox) {
    && b.first.chr == ' ' && b.last.chr == ' '
    && b.first.y == y && b.last.y == y
    && b.first.x <= b.last.x < |s|
    && AllDigits(s[b.first.x..b.last.x + 1])
    && (b.first.x == 0 || !IsDigit(s[b.first.x - 1]))
    && (b.last.x + 1 == |s| || !IsDigit(s[b.last.x + 1]))
    && b.value == DecimalValue(s[b.first.x..b.last.x + 1])
  }

  /** Column `j` lies in one of the boxes. */
  predicate Covered(bs: seq<NumberBox>, j: nat) {
    exists k :: 0 <= k < |bs| && bs[k].first.x <= j <= bs[k].last.x
  }

  /** Column `i` is not inside a run of digits (the scan never stops in
      the middle of one). */
  predicate Boundary(s: string, i: nat) {
    i == 0 || i >= |s| || !IsDigit(s[i - 1]) || !IsDigit(s[i])
  }

  /** The numbers of line `y` from column `i` on, as `[0-9]+` finds them. */
  function NumbersFrom(s: string, y: nat, i: nat): (bs: seq<NumberBox>)
    requires i <= |s| && Boundary(s, i)
    ensures forall k :: 0 <= k < |bs| ==> RunBox(s, y, bs[k]) && i <= bs[k].first.x
    ensures forall k :: 0 < k < |bs| ==> bs[k - 1].last.x < bs[k].first.x
    ensures forall j :: i <= j < |s| && IsDigit(s[j]) ==> Covered(bs, j)
    decreases |s| - i
  {
    if i == |s| then []
    else if !IsDigit(s[i]) then NumbersFrom(s, y, i + 1)
    else
      var e := RunEnd(s, i);
      var b := NumberBox(Point(' ', i, y), Point(' ', e - 1, y), DecimalValue(s[i..e]));
      var rest := NumbersFrom(s, y, e);
      FirstRun(s, y, i);
      CoveredRuns(s, i, b, rest);
      RunsCons(s, y, b, rest);
      [b] + rest
  }

  lemma RunsCons(s: string, y: nat, b: NumberBox, rest: seq<NumberBox>)
    requires RunBox(s, y, b)
    requires forall k :: 0 <= k < |rest| ==> RunBox(s, y, rest[k]) && b.last.x < rest[k].first.x
    requires forall k :: 0 < k < |rest| ==> rest[k - 1].last.x < rest[k].first.x
    ensures forall k :: 0 <= k < |[b] + rest| ==> RunBox(s, y, ([b] + rest)[k]) && b.first.x <= ([b] + rest)[k].first.x
    ensures forall k :: 0 < k < |[b] + rest| ==> ([b] + rest)[k - 1].last.x < ([b] + rest)[k].first.x
  {
    var bs := [b] + rest;
    forall k | 0 < k < |bs| ensures bs[k - 1].last.x < bs[k].first.x {
      if k > 1 {
        assert bs[k - 1] == rest[k - 2] && bs[k] == rest[k - 1];
      }
    }
  }

  /** The run starting at a boundary digit is a maximal run. */
  lemma FirstRun(s: string, y: nat, i: nat)
    requires i < |s| && Boundary(s, i) && IsDigit(s[i])
    ensures RunBox(s, y, NumberBox(Point(' ', i, y), Point(' ', RunEnd(s, i) - 1, y), DecimalValue(s[i..RunEnd(s, i)])))
  {
  }

  lemma CoveredRuns(s: string, i: nat, b: NumberBox, rest: seq<NumberBox>)
    requires b.first.x == i && b.last.x + 1 <= |s|
    requires forall j :: b.last.x + 1 <= j < |s| && IsDigit(s[j]) ==> Covered(rest, j)
    ensures forall j :: i <= j < |s| && IsDigit(s[j]) ==> Covered([b] + rest, j)
  {
    forall j | i <= j < |s| && IsDigit(s[j]) ensures Covered([b] + rest, j) {
      CoveredCons(b, rest, j);
    }
  }

  lemma CoveredCons(b: NumberBox, rest: seq<NumberBox>, j: nat)
    requires b.first.x <= j <= b.last.x || Covered(rest, j)
    ensures Covered([b] + rest, j)
  {
    var bs := [b] + rest;
    if b.first.x <= j <= b.last.x {
      assert bs[0] == b;
    } else {
      var k :| 0 <= k < |rest| && rest[k].first.x <= j <= rest[k].last.x;
      assert bs[k + 1] == rest[k];
    }
  }

  /** The boxes of the lines from `l` on. */
  function NumbersOfLines(lines: seq<string>, l: nat): (bs: seq<NumberBox>)
    requires l <= |lines|
    ensures forall k :: 0 <= k < |bs| ==>
      l <= bs[k].first.y < |lines| && RunBox(Trim(lines[bs[k].first.y]), bs[k].first.y, bs[k])
    decreases |lines| - l
  {
    if l == |lines| then [] else NumbersFrom(Trim(lines[l]), l, 0) + NumbersOfLines(lines, l + 1)
  }

  /** Boxes and symbols, each in reading order. */
  function PartsAndSymbols(lines: seq<string>): (r: (seq<NumberBox>, seq<Point>))
    ensures forall p :: p in r.1 <==> SymbolAt(lines, p)
    ensures forall k :: 0 <= k < |r.0| ==>
      r.0[k].first.y < |lines| && RunBox(Trim(lines[r.0[k].first.y]), r.0[k].first.y, r.0[k])
  {
    (NumbersOfLines(lines, 0), SymbolsOfLines(lines, 0))
  }

  /** Every digit of the schematic lies in a box of its line. */
  lemma {:induction false} DigitsCovered(lines: seq<string>, l: nat, y: nat, j: nat)
    requires l <= y < |lines| && j < |Trim(lines[y])| && IsDigit(Trim(lines[y])[j])
    ensures exists b :: b in NumbersOfLines(lines, l) && b.first.y == y && b.first.x <= j <= b.last.x
    decreases y - l
  {
    var here := NumbersFrom(Trim(lines[l]), l, 0);
    var bs := NumbersOfLines(lines, l);
    assert bs == here + NumbersOfLines(lines, l + 1);
    if y == l {
      var k :| 0 <= k < |here| && here[k].first.x <= j <= here[k].last.x;
      assert here[k] in bs;
    } else {
      DigitsCovered(lines, l + 1, y, j);
    }
  }

  // ---------------------------------------------------------------------
  // Byte columns
  // ---------------------------------------------------------------------

  /** Every character is ASCII. */
  predicate IsAscii(s: string) {
    forall k :: 0 <= k < |s| ==> s[k] as int < 0x80
  }

  /** The box of a run with the columns the program gives it: `start()` and
      `end() - 1` of the match, which are byte offsets into the line. The
      run is digits only, so the box keeps its width; only its place moves
      right, by the extra bytes of the characters before it. */
  function ByteBox(s: string, y: nat, b: NumberBox): (r: NumberBox)
    requires RunBox(s, y, b)
    ensures r.value == b.value && r.first.y == b.first.y == r.last.y
    ensures r.first.x - b.first.x == ByteOffset(s, b.first.x) - b.first.x
    ensures r.last.x - r.first.x == b.last.x - b.first.x
  {
    ByteOffsetAscii(s, b.first.x, b.last.x + 1);
    NumberBox(Point(' ', ByteOffset(s, b.first.x), y), Point(' ', ByteOffset(s, b.last.x + 1) - 1, y), b.value)
  }

  /** `b` is the run `c` with its columns moved right, or not at all. */
  predicate MovedRun(b: NumberBox, c: NumberBox) {
    b.value == c.value && b.first.y == c.first.y && c.first.x <= b.first.x
  }

  /** The boxes `bs` are the runs `cs`, one for one, moved. */
  predicate MovedRuns(bs: seq<NumberBox>, cs: seq<NumberBox>) {
    |bs| == |cs| && forall k :: 0 <= k < |bs| ==> MovedRun(bs[k], cs[k])
  }

  lemma MovedRunsAppend(bs: seq<NumberBox>, cs: seq<NumberBox>, bs': seq<NumberBox>, cs': seq<NumberBox>)
    requires MovedRuns(bs, cs) && MovedRuns(bs', cs')
    ensures MovedRuns(bs + bs', cs + cs')
  {
    forall k | 0 <= k < |bs + bs'| ensures MovedRun((bs + bs')[k], (cs + cs')[k]) {
      if k < |bs| {
        assert (bs + bs')[k] == bs[k] && (cs + cs')[k] == cs[k];
      } else {
        assert (bs + bs')[k] == bs'[k - |bs|] && (cs + cs')[k] == cs'[k - |bs|];
      }
    }
  }

  /** The runs of one line with byte columns. */
  function ByteBoxes(s: string, y: nat, cs: seq<NumberBox>): (bs: seq<NumberBox>)
    requires forall k :: 0 <= k < |cs| ==> RunBox(s, y, cs[k])
    ensures MovedRuns(bs, cs)
  {
    seq(|cs|, k requires 0 <= k < |cs| => ByteBox(s, y, cs[k]))
  }

  /** The boxes of the lines from `l` on with byte columns, as the program
      computes them: the runs of `NumbersOfLines`, one for one, moved. */
  function ByteNumbersOfLines(lines: seq<string>, l: nat): (bs: seq<NumberBox>)
    requires l <= |lines|
    ensures MovedRuns(bs, NumbersOfLines(lines, l))
    decreases |lines| - l
  {
    if l == |lines| then []
    else
      var s := Trim(lines[l]);
      var here := NumbersFrom(s, l, 0);
      var rest := ByteNumbersOfLines(lines, l + 1);
      MovedRunsAppend(ByteBoxes(s, l, here), here, rest, NumbersOfLines(lines, l + 1));
      ByteBoxes(s, l, here) + rest
  }

  /** Boxes with byte columns and symbols with character columns: the
      schematic as the program reads it. */
  function ByteColumnsPartsAndSymbols(lines: seq<string>): (r: (seq<NumberBox>, seq<Point>))
    ensures r.1 == PartsAndSymbols(lines).1
    ensures MovedRuns(r.0, PartsAndSymbols(lines).0)
  {
    (ByteNumbersOfLines(lines, 0), SymbolsOfLines(lines, 0))
  }

  lemma SliceAscii(s: string, i: nat, j: nat)
    requires IsAscii(s) && i <= j <= |s|
    ensures IsAscii(s[i..j])
  {
    assert forall k :: 0 <= k < j - i ==> s[i..j][k] == s[i + k];
  }

  lemma TrimAscii(s: string)
    requires IsAscii(s)
    ensures IsAscii(Trim(s))
  {
    var a := TrimStart(s);
    SliceAscii(s, |s| - |a|, |s|);
    var b := TrimEnd(a);
    SliceAscii(a, 0, |b|);
  }

  /** On an ASCII line the byte columns are the character columns. */
  lemma AsciiByteBoxes(s: string, y: nat, cs: seq<NumberBox>)
    requires IsAscii(s)
    requires forall k :: 0 <= k < |cs| ==> RunBox(s, y, cs[k])
    ensures ByteBoxes(s, y, cs) == cs
  {
    var bs := ByteBoxes(s, y, cs);
    forall k | 0 <= k < |cs| ensures bs[k] == cs[k] {
      ByteOffsetAscii(s, 0, cs[k].first.x);
      ByteOffsetAscii(s, 0, cs[k].last.x + 1);
    }
  }

  /** On ASCII lines byte offsets are character indices, so the program's
      boxes are the character-column boxes. */
  lemma {:induction false} AsciiByteNumbers(lines: seq<string>, l: nat)
    requires l <= |lines|
    requires forall y :: 0 <= y < |lines| ==> IsAscii(lines[y])
    ensures ByteNumbersOfLines(lines, l) == NumbersOfLines(lines, l)
    decreases |lines| - l
  {
    if l < |lines| {
      var s := Trim(lines[l]);
      TrimAscii(lines[l]);
      AsciiByteBoxes(s, l, NumbersFrom(s, l, 0));
      AsciiByteNumbers(lines, l + 1);
    }
  }

  /** On ASCII schematics the program's reading and the character-column
      reading agree. */
  lemma AsciiColumnsAgree(lines: seq<string>)
    requires forall y :: 0 <= y < |lines| ==> IsAscii(lines[y])
    ensures ByteColumnsPartsAndSymbols(lines) == PartsAndSymbols(lines)
  {
    AsciiByteNumbers(lines, 0);
  }

  /** A digit next to a symbol (in one of the eight cells around it) lies
      in a box that counts towards the part sum: the property the
      character-column reading keeps. */
  lemma TouchingDigitIsPart(lines: seq<string>, p: Point, y: nat, j: nat)
    requires SymbolAt(lines, p)
    requires y < |lines| && j < |Trim(lines[y])| && IsDigit(Trim(lines[y])[j])
    requires p.x - 1 <= j <= p.x + 1 && p.y - 1 <= y <= p.y + 1
    ensures exists b: NumberBox ::
      && b in PartNumbers(PartsAndSymbols(lines).0, PartsAndSymbols(lines).1)
      && b.first.y == y && b.first.x <= j <= b.last.x
  {
    var numbers, symbols := NumbersOfLines(lines, 0), SymbolsOfLines(lines, 0);
    DigitsCovered(lines, 0, y, j);
    var b :| b in numbers && b.first.y == y && b.first.x <= j <= b.last.x;
    var k :| 0 <= k < |numbers| && numbers[k] == b;
    assert Adjacent(p, b);
    PartNumbersMembers(numbers, symbols, b);
  }

  // ---------------------------------------------------------------------
  // Neighbours
  // ---------------------------------------------------------------------

  /** The symbol lies in the box widened by one cell on every side. */
  predicate Adjacent(p: Point, b: NumberBox): (r: bool)
    ensures b.first.y == b.last.y && b.first.x <= b.last.x ==>
      (r <==> exists x :: NearDigit(p, b, x))
  {
    var r := p.x >= b.first.x - 1 && p.x <= b.last.x + 1 && p.y >= b.first.y - 1 && p.y <= b.last.y + 1;
    if r && b.first.y == b.last.y && b.first.x <= b.last.x then
      var x := if p.x < b.first.x then b.first.x else if p.x > b.last.x then b.last.x else p.x;
      assert NearDigit(p, b, x);
      r
    else
      r
  }

  /** Column `x` holds a digit of the one-row box `b`, and `p` is that
      cell or one of the eight around it. */
  ghost predicate NearDigit(p: Point, b: NumberBox, x: int) {
    b.first.x <= x <= b.last.x && -1 <= p.x - x <= 1 && -1 <= p.y - b.first.y <= 1
  }

  /** The elements of `xs` that satisfy `f`, in their order. */
  function Keep<T>(xs: seq<T>, f: T -> bool): (r: seq<T>)
    ensures |r| <= |xs|
  {
    if |xs| == 0 then [] else (if f(xs[0]) then [xs[0]] else []) + Keep(xs[1..], f)
  }

  /** What is kept is exactly what is in `xs` and passes `f`. */
  lemma {:induction false} KeepMembers<T>(xs: seq<T>, f: T -> bool, x: T)
    ensures x in Keep(xs, f) <==> x in xs && f(x)
  {
    if |xs| > 0 {
      KeepMembers(xs[1..], f, x);
      assert xs == [xs[0]] + xs[1..];
    }
  }

  /** One step of keeping, from position `k` of `xs`. */
  lemma KeepFrom<T>(xs: seq<T>, f: T -> bool, k: nat)
    requires k < |xs|
    ensures Keep(xs[k..], f) == (if f(xs[k]) then [xs[k]] else []) + Keep(xs[k + 1..], f)
  {
    assert xs[k..][1..] == xs[k + 1..];
  }

  /** Keeping distributes over concatenation, so the kept elements stay
      in the order they came in. */
  lemma {:induction false} KeepAppend<T>(xs: seq<T>, ys: seq<T>, f: T -> bool)
    ensures Keep(xs + ys, f) == Keep(xs, f) + Keep(ys, f)
  {
    if |xs| == 0 {
      assert xs + ys == ys;
    } else {
      var head := if f(xs[0]) then [xs[0]] else [];
      assert (xs + ys)[0] == xs[0] && (xs + ys)[1..] == xs[1..] + ys;
      assert Keep(xs + ys, f) == head + Keep(xs[1..] + ys, f);
      KeepAppend(xs[1..], ys, f);
      assert Keep(xs, f) == head + Keep(xs[1..], f);
    }
  }

  /** The keep-test of `get_symbol_neighbours`. */
  function AroundBox(b: NumberBox): Point -> bool {
    (p: Point) => Adjacent(p, b)
  }

  /** The keep-test of `get_number_neighbours`. */
  function AroundPoint(p: Point): NumberBox -> bool {
    (b: NumberBox) => Adjacent(p, b)
  }

  /** The symbols adjacent to a box, in schematic order. */
  function SymbolNeighbours(b: NumberBox, symbols: seq<Point>): (ps: seq<Point>)
    ensures forall k :: 0 <= k < |ps| ==> ps[k] in symbols && Adjacent(ps[k], b)
  {
    var ps := Keep(symbols, AroundBox(b));
    assert forall k :: 0 <= k < |ps| ==> ps[k] in symbols && Adjacent(ps[k], b) by {
      forall k | 0 <= k < |ps| ensures ps[k] in symbols && Adjacent(ps[k], b) {
        KeepMembers(symbols, AroundBox(b), ps[k]);
      }
    }
    ps
  }

  /** The boxes adjacent to a symbol, in schematic order. */
  function NumberNeighbours(p: Point, numbers: seq<NumberBox>): (bs: seq<NumberBox>)
    ensures forall k :: 0 <= k < |bs| ==> bs[k] in numbers && Adjacent(p, bs[k])
  {
    var bs := Keep(numbers, AroundPoint(p));
    assert forall k :: 0 <= k < |bs| ==> bs[k] in numbers && Adjacent(p, bs[k]) by {
      forall k | 0 <= k < |bs| ensures bs[k] in numbers && Adjacent(p, bs[k]) {
        KeepMembers(numbers, AroundPoint(p), bs[k]);
      }
    }
    bs
  }

  /** The symbols around a box are the adjacent ones, and the boxes around
      a symbol are the adjacent ones: both directions use one relation. */
  lemma NeighboursSymmetric(p: Point, b: NumberBox, symbols: seq<Point>, numbers: seq<NumberBox>)
    ensures p in SymbolNeighbours(b, symbols) <==> p in symbols && Adjacent(p, b)
    ensures b in NumberNeighbours(p, numbers) <==> b in numbers && Adjacent(p, b)
  {
    KeepMembers(symbols, AroundBox(b), p);
    KeepMembers(numbers, AroundPoint(p), b);
  }

  // ---------------------------------------------------------------------
  // The two answers
  // ---------------------------------------------------------------------

  function Values(bs: seq<NumberBox>): (vs: seq<nat>)
    ensures |vs| == |bs| && forall k :: 0 <= k < |bs| ==> vs[k] == bs[k].value
  {
    seq(|bs|, k requires 0 <= k < |bs| => bs[k].value)
  }

  function HasSymbol(symbols: seq<Point>): NumberBox -> bool {
    (b: NumberBox) => |SymbolNeighbours(b, symbols)| > 0
  }

  /** The numbers with at least one symbol around them. */
  function PartNumbers(numbers: seq<NumberBox>, symbols: seq<Point>): (kept: seq<NumberBox>)
    ensures forall k :: 0 <= k < |kept| ==> kept[k] in numbers && |SymbolNeighbours(kept[k], symbols)| > 0
  {
    var kept := Keep(numbers, HasSymbol(symbols));
    assert forall k :: 0 <= k < |kept| ==> kept[k] in numbers && |SymbolNeighbours(kept[k], symbols)| > 0 by {
      forall k | 0 <= k < |kept| ensures kept[k] in numbers && |SymbolNeighbours(kept[k], symbols)| > 0 {
        KeepMembers(numbers, HasSymbol(symbols), kept[k]);
      }
    }
    kept
  }

  /** A number counts towards the part sum exactly when some symbol is
      adjacent to it. */
  lemma PartNumbersMembers(numbers: seq<NumberBox>, symbols: seq<Point>, b: NumberBox)
    ensures b in PartNumbers(numbers, symbols) <==> b in numbers && exists p :: p in symbols && Adjacent(p, b)
  {
    KeepMembers(numbers, HasSymbol(symbols), b);
    var ps := SymbolNeighbours(b, symbols);
    if exists p :: p in symbols && Adjacent(p, b) {
      var p :| p in symbols && Adjacent(p, b);
      NeighboursSymmetric(p, b, symbols, []);
    }
    if |ps| > 0 {
      assert ps[0] in ps;
      NeighboursSymmetric(ps[0], b, symbols, []);
    }
  }

  /** The summed part numbers: every part's value is part of it. */
  function PartSum(numbers: seq<NumberBox>, symbols: seq<Point>): (total: nat)
    ensures forall b :: b in PartNumbers(numbers, symbols) ==> b.value <= total
  {
    var kept := PartNumbers(numbers, symbols);
    assert forall b :: b in kept ==> b.value <= Sum(Values(kept)) by {
      forall b | b in kept ensures b.value <= Sum(Values(kept)) {
        var i :| 0 <= i < |kept| && kept[i] == b;
        SumBoundsEach(Values(kept), i);
      }
    }
    Sum(Values(kept))
  }

  function IsGear(kept: seq<NumberBox>): Point -> bool {
    (g: Point) => g.chr == '*' && |NumberNeighbours(g, kept)| == 2
  }

  /** The '*' symbols with exactly two kept numbers around them. */
  function Gears(symbols: seq<Point>, kept: seq<NumberBox>): seq<Point> {
    Keep(symbols, IsGear(kept))
  }

  /** The product of the values around a symbol. */
  function Ratio(g: Point, kept: seq<NumberBox>): nat {
    Product(Values(NumberNeighbours(g, kept)))
  }

  /** A symbol is a gear exactly when it is a '*' with exactly two kept
      numbers around it. */
  lemma GearsMembers(g: Point, symbols: seq<Point>, kept: seq<NumberBox>)
    ensures g in Gears(symbols, kept) <==> g in symbols && g.chr == '*' && |NumberNeighbours(g, kept)| == 2
  {
    KeepMembers(symbols, IsGear(kept), g);
  }

  /** Two kept elements come from two positions of `xs`, in that order. */
  lemma {:induction false} KeepTwoPositions<T>(xs: seq<T>, f: T -> bool, a: T, b: T)
    requires Keep(xs, f) == [a, b]
    ensures exists i, j :: 0 <= i < j < |xs| && xs[i] == a && xs[j] == b
  {
    assert |xs| > 0;
    var rest := Keep(xs[1..], f);
    if f(xs[0]) {
      assert [a, b] == [xs[0]] + rest;
      assert a == [a, b][0] == ([xs[0]] + rest)[0] == xs[0];
      assert rest == [a, b][1..] == [b];
      assert b in rest;
      KeepMembers(xs[1..], f, b);
      var j :| 0 <= j < |xs[1..]| && xs[1..][j] == b;
      assert xs[0] == a && xs[j + 1] == b;
    } else {
      assert Keep(xs, f) == rest;
      KeepTwoPositions(xs[1..], f, a, b);
      var i, j :| 0 <= i < j < |xs[1..]| && xs[1..][i] == a && xs[1..][j] == b;
      assert xs[i + 1] == a && xs[j + 1] == b;
    }
  }

  /** A gear's two neighbours are two kept numbers, at two positions of the
      kept list, that are adjacent to it; no other kept number is; and its
      ratio is the product of their values. */
  lemma GearRatio(g: Point, symbols: seq<Point>, kept: seq<NumberBox>)
    requires g in Gears(symbols, kept)
    ensures exists a, b ::
      && NumberNeighbours(g, kept) == [a, b]
      && (exists i, j :: 0 <= i < j < |kept| && kept[i] == a && kept[j] == b)
      && Adjacent(g, a) && Adjacent(g, b)
      && (forall c :: c in kept && Adjacent(g, c) ==> c == a || c == b)
      && Ratio(g, kept) == a.value * b.value
  {
    GearsMembers(g, symbols, kept);
    var ns := NumberNeighbours(g, kept);
    var a, b := ns[0], ns[1];
    assert ns == [a, b];
    KeepTwoPositions(kept, AroundPoint(g), a, b);
    assert a in ns && b in ns;
    NeighboursSymmetric(g, a, [], kept);
    NeighboursSymmetric(g, b, [], kept);
    forall c | c in kept && Adjacent(g, c) ensures c == a || c == b {
      NeighboursSymmetric(g, c, [], kept);
    }
    TwoProduct(Values(ns));
  }

  function Ratios(gears: seq<Point>, kept: seq<NumberBox>): (rs: seq<nat>)
    ensures |rs| == |gears| && forall k :: 0 <= k < |gears| ==> rs[k] == Ratio(gears[k], kept)
  {
    seq(|gears|, k requires 0 <= k < |gears| => Ratio(gears[k], kept))
  }

  /** The summed gear ratios: every gear's ratio is part of it. */
  function RatioSum(numbers: seq<NumberBox>, symbols: seq<Point>): (total: nat)
    ensures forall g :: g in Gears(symbols, PartNumbers(numbers, symbols)) ==>
      Ratio(g, PartNumbers(numbers, symbols)) <= total
  {
    var kept := PartNumbers(numbers, symbols);
    var gears := Gears(symbols, kept);
    assert forall g :: g in gears ==> Ratio(g, kept) <= Sum(Ratios(gears, kept)) by {
      forall g | g in gears ensures Ratio(g, kept) <= Sum(Ratios(gears, kept)) {
        var i :| 0 <= i < |gears| && gears[i] == g;
        SumBoundsEach(Ratios(gears, kept), i);
      }
    }
    Sum(Ratios(gears, kept))
  }

  // ---------------------------------------------------------------------
  // Byte columns against character columns
  // ---------------------------------------------------------------------

  /** The one-line schematic "€1" as the program scans it. */
  predicate EuroOne(lines: seq<string>) {
    |lines| == 1 && |lines[0]| == 2 && lines[0][0] == Euro && lines[0][1] == '1'
  }

  /** The euro sign, U+20AC: three bytes in UTF-8. */
  const Euro: char := 0x20AC as char

  /** The symbol of "€1", and its number by character and by byte columns. */
  const EuroSign: Point := Point(Euro, 0, 0)
  const CharOne: NumberBox := Box(1, 1, 0, 1)
  const ByteOne: NumberBox := Box(3, 3, 0, 1)

  /** Its one symbol is the '€' in column 0. */
  lemma EuroOneSymbols(lines: seq<string>)
    requires EuroOne(lines)
    ensures Trim(lines[0]) == lines[0]
    ensures SymbolsOfLines(lines, 0) == [Point(lines[0][0], 0, 0)]
  {
    EuroOneTrim(lines[0]);
    EuroOneLineSymbols(lines[0]);
    SymbolsOfOneLine(lines);
  }

  lemma EuroOneTrim(s: string)
    requires |s| == 2 && s[0] == Euro && s[1] == '1'
    ensures Trim(s) == s
  {
    TrimStartKeeps(s);
    TrimEndKeeps(s);
  }

  /** The symbols of a one-line schematic are those of its line. */
  lemma SymbolsOfOneLine(lines: seq<string>)
    requires |lines| == 1
    ensures SymbolsOfLines(lines, 0) == SymbolsFrom(Trim(lines[0]), 0, 0)
  {
    assert SymbolsOfLines(lines, 1) == [];
  }

  /** The boxes of a one-line schematic are those of its line. */
  lemma NumbersOfOneLine(lines: seq<string>)
    requires |lines| == 1
    ensures NumbersOfLines(lines, 0) == NumbersFrom(Trim(lines[0]), 0, 0)
    ensures ByteNumbersOfLines(lines, 0) == ByteBoxes(Trim(lines[0]), 0, NumbersFrom(Trim(lines[0]), 0, 0))
  {
    assert NumbersOfLines(lines, 1) == [];
    assert ByteNumbersOfLines(lines, 1) == [];
  }

  lemma EuroOneLineSymbols(s: string)
    requires |s| == 2 && s[0] == Euro && s[1] == '1'
    ensures SymbolsFrom(s, 0, 0) == [EuroSign]
  {
    assert SymbolsFrom(s, 0, 2) == [];
    assert SymbolsFrom(s, 0, 1) == [];
  }

  /** Its one number is the 1 in character column 1, which is byte 3. */
  lemma EuroOneNumbers(lines: seq<string>)
    requires EuroOne(lines)
    ensures NumbersOfLines(lines, 0) == [CharOne]
    ensures ByteNumbersOfLines(lines, 0) == [ByteOne]
  {
    var s := lines[0];
    EuroOneTrim(s);
    NumbersOfOneLine(lines);
    EuroOneLineNumbers(s);
    EuroOneBytes(s);
  }

  lemma EuroOneLineNumbers(s: string)
    requires |s| == 2 && s[0] == Euro && s[1] == '1'
    ensures NumbersFrom(s, 0, 0) == [CharOne]
  {
    assert RunEnd(s, 2) == 2 && RunEnd(s, 1) == 2;
    assert s[1..2] == "1" && DecimalValue(s[1..2]) == 1;
    assert NumbersFrom(s, 0, 2) == [];
  }

  lemma EuroOneBytes(s: string)
    requires |s| == 2 && s[0] == Euro && s[1] == '1'
    ensures RunBox(s, 0, CharOne)
    ensures ByteBoxes(s, 0, [CharOne]) == [ByteOne]
  {
    assert s[1..2] == "1" && DecimalValue(s[1..2]) == 1;
    assert ByteOffset(s, 1) == 3;
    assert ByteOffset(s, 2) == 4;
  }

  /** The part sum of one box among one symbol. */
  lemma OneBoxPartSum(b: NumberBox, p: Point)
    ensures PartSum([b], [p]) == if Adjacent(p, b) then b.value else 0
  {
    assert [b][1..] == [];
    if Adjacent(p, b) {
      SomeSymbol(b, [p], 0);
      assert PartNumbers([b], [p]) == [b];
      assert Values([b]) == [b.value];
      assert [b.value][1..] == [];
      assert Sum([b.value]) == b.value + Sum([]);
      assert PartSum([b], [p]) == Sum(Values([b]));
    } else {
      NoSymbol(b, [p]);
      assert PartNumbers([b], [p]) == [];
      assert Values([]) == [];
    }
  }

  /** The euro sign at column 0 touches a box at column 1, not one at
      column 3. */
  lemma EuroOnePartSums()
    ensures PartSum([CharOne], [EuroSign]) == 1
    ensures PartSum([ByteOne], [EuroSign]) == 0
  {
    OneBoxPartSum(CharOne, EuroSign);
    OneBoxPartSum(ByteOne, EuroSign);
  }

  /** "€1" read by character columns. */
  lemma EuroOneCharRead(lines: seq<string>)
    requires EuroOne(lines)
    ensures PartsAndSymbols(lines) == ([CharOne], [EuroSign])
  {
    EuroOneNumbers(lines);
    EuroOneSymbols(lines);
  }

  /** "€1" read with byte columns for the boxes: the number moves from
      column 1 to byte 3, the symbol stays. */
  lemma EuroOneByteRead(lines: seq<string>)
    requires EuroOne(lines)
    ensures ByteColumnsPartsAndSymbols(lines) == ([ByteOne], [EuroSign])
  {
    EuroOneNumbers(lines);
    EuroOneSymbols(lines);
  }

  /** Read by character columns, "€1" has part sum 1. */
  lemma EuroOneCharColumns(lines: seq<string>)
    requires EuroOne(lines)
    ensures PartSum(PartsAndSymbols(lines).0, PartsAndSymbols(lines).1) == 1
  {
    EuroOneCharRead(lines);
    EuroOnePartSums();
  }

  /** Read with byte columns for the boxes, "€1" has part sum 0. */
  lemma EuroOneByteColumns(lines: seq<string>)
    requires EuroOne(lines)
    ensures ByteColumnsPartsAndSymbols(lines).0 == [ByteOne]
    ensures PartSum(ByteColumnsPartsAndSymbols(lines).0, ByteColumnsPartsAndSymbols(lines).1) == 0
  {
    EuroOneByteRead(lines);
    EuroOnePartSums();
  }

  /** In "€1" the digit touches the symbol '€', so the character-column
      reading counts it; in the program's reading the box sits at byte 3
      while the symbol stays at column 0, and the part sum is 0. */
  lemma MixedColumnsExample(lines: seq<string>)
    requires EuroOne(lines)
    ensures SymbolAt(lines, EuroSign) && IsDigit(Trim(lines[0])[1])
    ensures ByteColumnsPartsAndSymbols(lines).0 == [ByteOne]
    ensures PartSum(ByteColumnsPartsAndSymbols(lines).0, ByteColumnsPartsAndSymbols(lines).1) == 0
    ensures PartSum(PartsAndSymbols(lines).0, PartsAndSymbols(lines).1) == 1
  {
    EuroOneTrim(lines[0]);
    EuroOneCharColumns(lines);
    EuroOneByteColumns(lines);
  }

  // ---------------------------------------------------------------------
  // The example schematic
  // ---------------------------------------------------------------------

  /** A box on line `y` from column `x0` to `x1`. */
  function Box(x0: nat, x1: nat, y: nat, v: nat): NumberBox {
    NumberBox(Point(' ', x0, y), Point(' ', x1, y), v)
  }

  /** The boxes the example's ten lines hold, in reading order (the
      list is described element by element so that the proofs reason
      about it rather than evaluate it). */
  predicate ExampleNumbers(numbers: seq<NumberBox>) {
    && |numbers| == 10
    && numbers[0] == Box(0, 2, 0, 467) && numbers[1] == Box(5, 7, 0, 114)
    && numbers[2] == Box(2, 3, 2, 35) && numbers[3] == Box(6, 8, 2, 633)
    && numbers[4] == Box(0, 2, 4, 617) && numbers[5] == Box(7, 8, 5, 58)
    && numbers[6] == Box(2, 4, 6, 592) && numbers[7] == Box(6, 8, 7, 755)
    && numbers[8] == Box(1, 3, 9, 664) && numbers[9] == Box(5, 7, 9, 598)
  }

  /** The example's symbols, in reading order. */
  predicate ExampleSymbols(symbols: seq<Point>) {
    && |symbols| == 6
    && symbols[0] == Point('*', 3, 1) && symbols[1] == Point('#', 6, 3)
    && symbols[2] == Point('*', 3, 4) && symbols[3] == Point('+', 5, 5)
    && symbols[4] == Point('$', 3, 8) && symbols[5] == Point('*', 5, 8)
  }

  /** Only 114 and 58 have no symbol around them. */
  lemma ExampleKept(numbers: seq<NumberBox>, symbols: seq<Point>)
    requires ExampleNumbers(numbers) && ExampleSymbols(symbols)
    ensures PartNumbers(numbers, symbols) ==
      [numbers[0], numbers[2], numbers[3], numbers[4], numbers[6], numbers[7], numbers[8], numbers[9]]
  {
    ExampleKeptAll(numbers, symbols);
  }

  lemma ExampleKeptAll(numbers: seq<NumberBox>, symbols: seq<Point>)
    requires ExampleNumbers(numbers) && ExampleSymbols(symbols)
    ensures Keep(numbers, HasSymbol(symbols)) ==
      [numbers[0], numbers[2], numbers[3], numbers[4], numbers[6], numbers[7], numbers[8], numbers[9]]
  {
    var f := HasSymbol(symbols);
    ExampleHasSymbol(numbers, symbols);
    ExampleKeptLate(numbers, symbols);
    KeepIn(numbers, f, 4);
    KeepIn(numbers, f, 3);
    KeepIn(numbers, f, 2);
    KeepOut(numbers, f, 1);
    KeepIn(numbers, f, 0);
    assert numbers[0..] == numbers;
  }

  lemma ExampleKeptLate(numbers: seq<NumberBox>, symbols: seq<Point>)
    requires ExampleNumbers(numbers) && ExampleSymbols(symbols)
    ensures Keep(numbers[5..], HasSymbol(symbols)) == [numbers[6], numbers[7], numbers[8], numbers[9]]
  {
    var f := HasSymbol(symbols);
    ExampleHasSymbol(numbers, symbols);
    assert numbers[10..] == [];
    KeepIn(numbers, f, 9);
    KeepIn(numbers, f, 8);
    KeepIn(numbers, f, 7);
    KeepIn(numbers, f, 6);
    KeepOut(numbers, f, 5);
  }

  lemma KeepIn<T>(xs: seq<T>, f: T -> bool, k: nat)
    requires k < |xs| && f(xs[k])
    ensures Keep(xs[k..], f) == [xs[k]] + Keep(xs[k + 1..], f)
  {
    assert xs[k..][1..] == xs[k + 1..];
  }

  lemma KeepOut<T>(xs: seq<T>, f: T -> bool, k: nat)
    requires k < |xs| && !f(xs[k])
    ensures Keep(xs[k..], f) == Keep(xs[k + 1..], f)
  {
    assert xs[k..][1..] == xs[k + 1..];
  }

  lemma ExampleHasSymbol(numbers: seq<NumberBox>, symbols: seq<Point>)
    requires ExampleNumbers(numbers) && ExampleSymbols(symbols)
    ensures forall k :: 0 <= k < 10 ==> (HasSymbol(symbols)(numbers[k]) <==> k != 1 && k != 5)
  {
    SomeSymbol(numbers[0], symbols, 0);
    NoSymbol(numbers[1], symbols);
    SomeSymbol(numbers[2], symbols, 0);
    SomeSymbol(numbers[3], symbols, 1);
    SomeSymbol(numbers[4], symbols, 2);
    NoSymbol(numbers[5], symbols);
    SomeSymbol(numbers[6], symbols, 3);
    SomeSymbol(numbers[7], symbols, 5);
    SomeSymbol(numbers[8], symbols, 4);
    SomeSymbol(numbers[9], symbols, 5);
  }

  lemma SomeSymbol(b: NumberBox, symbols: seq<Point>, k: nat)
    requires k < |symbols| && Adjacent(symbols[k], b)
    ensures HasSymbol(symbols)(b)
  {
    NeighboursSymmetric(symbols[k], b, symbols, []);
  }

  lemma NoSymbol(b: NumberBox, symbols: seq<Point>)
    requires forall k :: 0 <= k < |symbols| ==> !Adjacent(symbols[k], b)
    ensures !HasSymbol(symbols)(b)
  {
    var ps := SymbolNeighbours(b, symbols);
    if |ps| > 0 {
      assert ps[0] in ps;
      NeighboursSymmetric(ps[0], b, symbols, []);
      assert false;
    }
  }

  /** The example's gears: the '*' at (3,1) between 467 and 35 and the
      '*' at (5,8) between 755 and 598; the '*' at (3,4) touches only 617. */
  lemma ExampleGears(kept: seq<NumberBox>, numbers: seq<NumberBox>, symbols: seq<Point>)
    requires ExampleNumbers(numbers) && ExampleSymbols(symbols)
    requires kept == [numbers[0], numbers[2], numbers[3], numbers[4], numbers[6], numbers[7], numbers[8], numbers[9]]
    ensures Gears(symbols, kept) == [symbols[0], symbols[5]]
    ensures Ratios(Gears(symbols, kept), kept) == [467 * 35, 755 * 598]
  {
    var f := IsGear(kept);
    ExampleGear1(kept, numbers, symbols);
    ExampleGear2(kept, numbers, symbols);
    ExampleNotGear(kept, numbers, symbols);
    assert symbols[6..] == [];
    KeepIn(symbols, f, 5);
    KeepOut(symbols, f, 4);
    KeepOut(symbols, f, 3);
    KeepOut(symbols, f, 2);
    KeepOut(symbols, f, 1);
    KeepIn(symbols, f, 0);
    assert symbols[0..] == symbols;
    TwoProduct(Values(NumberNeighbours(symbols[0], kept)));
    TwoProduct(Values(NumberNeighbours(symbols[5], kept)));
  }

  lemma TwoProduct(vs: seq<nat>)
    requires |vs| == 2
    ensures Product(vs) == vs[0] * vs[1]
  {
    assert vs[1..][1..] == [];
    assert Product(vs[1..]) == vs[1];
  }

  lemma ExampleGear1(kept: seq<NumberBox>, numbers: seq<NumberBox>, symbols: seq<Point>)
    requires ExampleNumbers(numbers) && ExampleSymbols(symbols)
    requires kept == [numbers[0], numbers[2], numbers[3], numbers[4], numbers[6], numbers[7], numbers[8], numbers[9]]
    ensures NumberNeighbours(symbols[0], kept) == [kept[0], kept[1]]
  {
    var f := AroundPoint(symbols[0]);
    assert kept[8..] == [];
    KeepOut(kept, f, 7);
    KeepOut(kept, f, 6);
    KeepOut(kept, f, 5);
    KeepOut(kept, f, 4);
    KeepOut(kept, f, 3);
    KeepOut(kept, f, 2);
    KeepIn(kept, f, 1);
    KeepIn(kept, f, 0);
    assert kept[0..] == kept;
  }

  lemma ExampleGear2(kept: seq<NumberBox>, numbers: seq<NumberBox>, symbols: seq<Point>)
    requires ExampleNumbers(numbers) && ExampleSymbols(symbols)
    requires kept == [numbers[0], numbers[2], numbers[3], numbers[4], numbers[6], numbers[7], numbers[8], numbers[9]]
    ensures NumberNeighbours(symbols[5], kept) == [kept[5], kept[7]]
  {
    var f := AroundPoint(symbols[5]);
    assert kept[8..] == [];
    KeepIn(kept, f, 7);
    KeepOut(kept, f, 6);
    KeepIn(kept, f, 5);
    KeepOut(kept, f, 4);
    KeepOut(kept, f, 3);
    KeepOut(kept, f, 2);
    KeepOut(kept, f, 1);
    KeepOut(kept, f, 0);
    assert kept[0..] == kept;
  }

  lemma ExampleNotGear(kept: seq<NumberBox>, numbers: seq<NumberBox>, symbols: seq<Point>)
    requires ExampleNumbers(numbers) && ExampleSymbols(symbols)
    requires kept == [numbers[0], numbers[2], numbers[3], numbers[4], numbers[6], numbers[7], numbers[8], numbers[9]]
    ensures NumberNeighbours(symbols[2], kept) == [kept[3]]
  {
    var f := AroundPoint(symbols[2]);
    assert kept[8..] == [];
    KeepOut(kept, f, 7);
    KeepOut(kept, f, 6);
    KeepOut(kept, f, 5);
    KeepOut(kept, f, 4);
    KeepIn(kept, f, 3);
    KeepOut(kept, f, 2);
    KeepOut(kept, f, 1);
    KeepOut(kept, f, 0);
    assert kept[0..] == kept;
  }

  /** The test's totals: part sum 4361 and gear-ratio sum 467835. */
  lemma ExampleSums(numbers: seq<NumberBox>, symbols: seq<Point>)
    requires ExampleNumbers(numbers) && ExampleSymbols(symbols)
    ensures PartSum(numbers, symbols) == 4361
    ensures RatioSum(numbers, symbols) == 467835
  {
    var kept := PartNumbers(numbers, symbols);
    ExampleKept(numbers, symbols);
    ExampleGears(kept, numbers, symbols);
    ExampleValues(kept, numbers);
    var rs := Ratios(Gears(symbols, kept), kept);
    assert rs[1..][1..] == [];
    assert Sum(rs[1..]) == 755 * 598;
  }

  lemma ExampleValues(kept: seq<NumberBox>, numbers: seq<NumberBox>)
    requires ExampleNumbers(numbers)
    requires kept == [numbers[0], numbers[2], numbers[3], numbers[4], numbers[6], numbers[7], numbers[8], numbers[9]]
    ensures Sum(Values(kept)) == 4361
  {
    var vs := Values(kept);
    assert vs == [467, 35, 633, 617, 592, 755, 664, 598];
    assert vs[8..] == [];
    SumFrom(vs, 7);
    SumFrom(vs, 6);
    SumFrom(vs, 5);
    SumFrom(vs, 4);
    SumFrom(vs, 3);
    SumFrom(vs, 2);
    SumFrom(vs, 1);
    SumFrom(vs, 0);
    assert vs[0..] == vs;
  }

  lemma SumFrom(xs: seq<nat>, k: nat)
    requires k < |xs|
    ensures Sum(xs[k..]) == xs[k] + Sum(xs[k + 1..])
  {
    assert xs[k..][1..] == xs[k + 1..];
  }

  /** The test's two regressions: 467 touches only the '*' at (3,1) and
      755 only the '*' at (5,8). */
  lemma ExampleRegressions(numbers: seq<NumberBox>, symbols: seq<Point>)
    requires ExampleNumbers(numbers) && ExampleSymbols(symbols)
    ensures SymbolNeighbours(numbers[0], symbols) == [symbols[0]]
    ensures SymbolNeighbours(numbers[7], symbols) == [symbols[5]]
  {
    var f := AroundBox(numbers[0]);
    var g := AroundBox(numbers[7]);
    assert symbols[6..] == [] && symbols[0..] == symbols;
    KeepOut(symbols, f, 5);
    KeepOut(symbols, f, 4);
    KeepOut(symbols, f, 3);
    KeepOut(symbols, f, 2);
    KeepOut(symbols, f, 1);
    KeepIn(symbols, f, 0);
    KeepIn(symbols, g, 5);
    KeepOut(symbols, g, 4);
    KeepOut(symbols, g, 3);
    KeepOut(symbols, g, 2);
    KeepOut(symbols, g, 1);
    KeepOut(symbols, g, 0);
  }
}
