/**
 * Day 6: boat races. Holding the button for `x` milliseconds of a race
 * lasting `t` gives speed `x` for the remaining `t - x` milliseconds, so
 * the boat covers `x * (t - x)`; a hold wins when that beats the record
 * `d`. Part one multiplies the number of winning holds over the races,
 * part two reads each line as a single number with the gaps removed.
 */
module Day6 {
  import opened Common

  datatype Race = Race(time: nat, distance: nat)

  // ---------------------------------------------------------------------
  // Reading the two lines
  // ---------------------------------------------------------------------

  /** Read every word as an unsigned number; fails when any word does
      not read (collecting an iterator of `Result`s). */
  function ParseAll(ws: seq<string>): (r: Option<seq<nat>>)
    ensures r.Some? <==> forall k :: 0 <= k < |ws| ==> ParseUnsigned(ws[k]).Some?
    ensures r.Some? ==> |r.value| == |ws|
    ensures r.Some? ==> forall k :: 0 <= k < |ws| ==> ParseUnsigned(ws[k]) == Some(r.value[k])
  {
    if |ws| == 0 then Some([])
    else match ParseUnsigned(ws[0])
      case None => None
      case Some(n) =>
        match ParseAll(ws[1..])
        case None => None
        case Some(ns) => Some([n] + ns)
  }

  /** The words of a line after its first one (`skip(1)`). */
  function Fields(line: string): (fs: seq<string>)
    ensures |fs| == if |Words(line)| == 0 then 0 else |Words(line)| - 1
    ensures forall k :: 0 <= k < |fs| ==> fs[k] == Words(line)[k + 1]
  {
    var ws := Words(line);
    if |ws| == 0 then [] else ws[1..]
  }

  /** The numbers of a line after its tag. */
  function ParseRow(line: string): (r: Option<seq<nat>>)
    ensures r.Some? <==> forall k :: 0 <= k < |Fields(line)| ==> ParseUnsigned(Fields(line)[k]).Some?
    ensures r.Some? ==> |r.value| == |Fields(line)|
    ensures r.Some? ==> forall k :: 0 <= k < |r.value| ==> ParseUnsigned(Fields(line)[k]) == Some(r.value[k])
  {
    ParseAll(Fields(line))
  }

  /** Pair the i-th time with the i-th distance, stopping at the end of
      the shorter list. */
  function Zip(xs: seq<nat>, ys: seq<nat>): (rs: seq<Race>)
    ensures |rs| == if |xs| <= |ys| then |xs| else |ys|
    ensures forall i :: 0 <= i < |rs| ==> rs[i] == Race(xs[i], ys[i])
  {
    if |xs| == 0 || |ys| == 0 then [] else [Race(xs[0], ys[0])] + Zip(xs[1..], ys[1..])
  }

  /** The times line, then the distances line; any further line is not
      read. Both lines must exist. The table fails to read when a field of
      either line is not a number; otherwise it pairs the fields up to the
      shorter line. */
  function ParseInput(lines: seq<string>): (r: Option<seq<Race>>)
    requires |lines| >= 2
    ensures r.Some? <==>
      && (forall k :: 0 <= k < |Fields(lines[0])| ==> ParseUnsigned(Fields(lines[0])[k]).Some?)
      && (forall k :: 0 <= k < |Fields(lines[1])| ==> ParseUnsigned(Fields(lines[1])[k]).Some?)
    ensures r.Some? ==> |r.value| == if |Fields(lines[0])| <= |Fields(lines[1])| then |Fields(lines[0])| else |Fields(lines[1])|
    ensures r.Some? ==> forall i :: 0 <= i < |r.value| ==>
      && ParseUnsigned(Fields(lines[0])[i]) == Some(r.value[i].time)
      && ParseUnsigned(Fields(lines[1])[i]) == Some(r.value[i].distance)
  {
    match (ParseRow(lines[0]), ParseRow(lines[1]))
    case (Some(ts), Some(ds)) => Some(Zip(ts, ds))
    case _ => None
  }

  function Times(races: seq<Race>): (ts: seq<nat>)
    ensures |ts| == |races| && forall i :: 0 <= i < |races| ==> ts[i] == races[i].time
  {
    seq(|races|, i requires 0 <= i < |races| => races[i].time)
  }

  function Distances(races: seq<Race>): (ds: seq<nat>)
    ensures |ds| == |races| && forall i :: 0 <= i < |races| ==> ds[i] == races[i].distance
  {
    seq(|races|, i requires 0 <= i < |races| => races[i].distance)
  }

  /** Zipping the two columns of a table of races gives the table back. */
  lemma ZipColumns(races: seq<Race>)
    ensures Zip(Times(races), Distances(races)) == races
  {
  }

  // ---------------------------------------------------------------------
  // Printing the two lines and reading them back
  // ---------------------------------------------------------------------

  function Decimals(ns: seq<nat>): (ws: seq<string>)
    ensures |ws| == |ns| && forall k :: 0 <= k < |ns| ==> ws[k] == Decimal(ns[k])
  {
    seq(|ns|, k requires 0 <= k < |ns| => Decimal(ns[k]))
  }

  /** A tag and the numbers after it, separated by single spaces. */
  function RenderRow(tag: string, ns: seq<nat>): string {
    Unwords([tag] + Decimals(ns))
  }

  function RenderInput(races: seq<Race>): (lines: seq<string>)
    ensures |lines| == 2
  {
    [RenderRow("Time:", Times(races)), RenderRow("Distance:", Distances(races))]
  }

  lemma NumeralIsWord(s: string)
    requires IsNumeral(s)
    ensures IsWord(s)
  {
    forall i | 0 <= i < |s| ensures !IsSpace(s[i]) {
      assert IsDigit(s[i]);
    }
  }

  lemma ParseAllDecimals(ns: seq<nat>)
    ensures ParseAll(Decimals(ns)) == Some(ns)
  {
    forall k | 0 <= k < |ns| ensures ParseUnsigned(Decimals(ns)[k]) == Some(ns[k]) {
      ParseUnsignedDecimal(ns[k]);
    }
    var r := ParseAll(Decimals(ns));
    assert r.Some?;
    assert forall k :: 0 <= k < |ns| ==> r.value[k] == ns[k];
    assert r.value == ns;
  }

  /** A row printed under any tag without white space reads back as its
      numbers. */
  lemma RowRoundTrip(tag: string, ns: seq<nat>)
    requires IsWord(tag)
    ensures ParseRow(RenderRow(tag, ns)) == Some(ns)
  {
    var ws := [tag] + Decimals(ns);
    forall k | 0 <= k < |ws| ensures IsWord(ws[k]) {
      if k > 0 {
        NumeralIsWord(Decimal(ns[k - 1]));
      }
    }
    WordsUnwords(ws);
    assert Fields(RenderRow(tag, ns)) == Decimals(ns);
    ParseAllDecimals(ns);
  }

  /** The printed table of races reads back as the same races. */
  lemma InputRoundTrip(races: seq<Race>)
    ensures ParseInput(RenderInput(races)) == Some(races)
  {
    var lines := RenderInput(races);
    TagIsWord("Time:");
    TagIsWord("Distance:");
    RowRoundTrip("Time:", Times(races));
    RowRoundTrip("Distance:", Distances(races));
    assert ParseRow(lines[0]) == Some(Times(races)) && ParseRow(lines[1]) == Some(Distances(races));
    ZipColumns(races);
  }

  lemma TagIsWord(tag: string)
    requires tag == "Time:" || tag == "Distance:"
    ensures IsWord(tag)
  {
  }

  // ---------------------------------------------------------------------
  // Winning holds
  // ---------------------------------------------------------------------

  /** The distance covered when holding for `x` of `t` milliseconds. */
  function Reach(t: nat, x: nat): nat
    requires x <= t
  {
    x * (t - x)
  }

  predicate Wins(t: nat, d: nat, x: nat)
    requires x <= t
  {
    Reach(t, x) > d
  }

  /** The number of winning holds below `n`. Holding for no time never
      wins. */
  function CountWins(t: nat, d: nat, n: nat): (c: nat)
    requires n <= t
    ensures c <= n
    ensures n > 0 ==> c <= n - 1
  {
    if n == 0 then 0 else CountWins(t, d, n - 1) + (if Wins(t, d, n - 1) then 1 else 0)
  }

  /** The winning holds of one race: `(0..t).filter(..).count()`. */
  function Ways(t: nat, d: nat): (w: nat)
    ensures t > 0 ==> w <= t - 1
  {
    CountWins(t, d, t)
  }

  function WinSet(t: nat, d: nat, n: nat): set<nat>
    requires n <= t
  {
    set x: nat | x < n && Wins(t, d, x)
  }

  /** The count is the size of the set of winning holds. */
  lemma {:induction false} CountWinsIsSize(t: nat, d: nat, n: nat)
    requires n <= t
    ensures CountWins(t, d, n) == |WinSet(t, d, n)|
  {
    if n == 0 {
      assert WinSet(t, d, n) == {};
    } else {
      CountWinsIsSize(t, d, n - 1);
      if Wins(t, d, n - 1) {
        assert WinSet(t, d, n) == WinSet(t, d, n - 1) + {n - 1};
      } else {
        assert WinSet(t, d, n) == WinSet(t, d, n - 1);
      }
    }
  }

  lemma WaysIsSize(t: nat, d: nat)
    ensures Ways(t, d) == |set x: nat | x < t && Wins(t, d, x)|
  {
    CountWinsIsSize(t, d, t);
  }

  /** Holding for `x` or for `t - x` covers the same distance. */
  lemma WinsMirror(t: nat, d: nat, x: nat)
    requires x <= t
    ensures Wins(t, d, x) == Wins(t, d, t - x)
  {
  }

  lemma MulNonnegative(a: int, b: int)
    requires a >= 0 && b >= 0
    ensures a * b >= 0
  {
  }

  /** Up to the middle of the race a longer hold goes further. */
  lemma Rise(t: nat, x: nat, y: nat)
    requires x <= y && x + y <= t
    ensures Reach(t, x) <= Reach(t, y)
  {
    var a: int := y - x;
    var b: int := t - x - y;
    assert Reach(t, y) - Reach(t, x) == a * b;
    MulNonnegative(a, b);
  }

  /** The winning holds form an interval: a hold between two winning holds
      wins too. */
  lemma WinsBetween(t: nat, d: nat, x: nat, y: nat, z: nat)
    requires x <= y <= z <= t
    requires Wins(t, d, x) && Wins(t, d, z)
    ensures Wins(t, d, y)
  {
    if x + y <= t {
      Rise(t, x, y);
    } else {
      WinsMirror(t, d, y);
      WinsMirror(t, d, z);
      Rise(t, t - z, t - y);
    }
  }

  /** Given the shortest winning hold `lo`, the winning holds are exactly
      those from `lo` to `t - lo`. */
  lemma WinnersBetween(t: nat, d: nat, lo: nat, x: nat)
    requires 2 * lo <= t && Wins(t, d, lo) && (lo == 0 || !Wins(t, d, lo - 1))
    requires x <= t
    ensures Wins(t, d, x) <==> lo <= x <= t - lo
  {
    WinsMirror(t, d, lo);
    if lo <= x <= t - lo {
      WinsBetween(t, d, lo, x, t - lo);
    } else if x < lo {
      Rise(t, x, lo - 1);
    } else {
      WinsMirror(t, d, x);
      Rise(t, t - x, lo - 1);
    }
  }

  /** Counting the holds below `n` when the winners are `lo <= x < hi`. */
  lemma {:induction false} CountInterval(t: nat, d: nat, lo: nat, hi: nat, n: nat)
    requires lo <= hi <= t && n <= t
    requires forall x :: 0 <= x < t ==> (Wins(t, d, x) <==> lo <= x < hi)
    ensures CountWins(t, d, n) == if n <= lo then 0 else if n <= hi then n - lo else hi - lo
  {
    if n > 0 {
      CountInterval(t, d, lo, hi, n - 1);
    }
  }

  /** The number of winning holds from the shortest one. */
  lemma WaysFromShortest(t: nat, d: nat, lo: nat)
    requires 2 * lo <= t && Wins(t, d, lo) && (lo == 0 || !Wins(t, d, lo - 1))
    ensures Ways(t, d) == t + 1 - 2 * lo
  {
    assert lo > 0;
    forall x | 0 <= x < t ensures Wins(t, d, x) <==> lo <= x < t - lo + 1 {
      WinnersBetween(t, d, lo, x);
    }
    CountInterval(t, d, lo, t - lo + 1, t);
  }

  // ---------------------------------------------------------------------
  // The two answers
  // ---------------------------------------------------------------------

  function WaysPerRace(races: seq<Race>): (ws: seq<nat>)
    ensures |ws| == |races|
    ensures forall i :: 0 <= i < |races| ==> ws[i] == Ways(races[i].time, races[i].distance)
  {
    seq(|races|, i requires 0 <= i < |races| => Ways(races[i].time, races[i].distance))
  }

  /** Part one: the product of the numbers of winning holds. It is zero
      exactly when some race cannot be won. */
  function Solution1(races: seq<Race>): (p: nat)
    ensures p == 0 <==> exists i :: 0 <= i < |races| && Ways(races[i].time, races[i].distance) == 0
  {
    var ws := WaysPerRace(races);
    ProductZero(ws);
    Product(ws)
  }

  lemma {:induction false} ProductZero(xs: seq<nat>)
    ensures Product(xs) == 0 <==> exists k :: 0 <= k < |xs| && xs[k] == 0
  {
    if |xs| > 0 {
      ProductZero(xs[1..]);
      if Product(xs[1..]) == 0 {
        var k :| 0 <= k < |xs[1..]| && xs[1..][k] == 0;
        assert xs[k + 1] == 0;
      }
      if xs[0] != 0 && Product(xs[1..]) != 0 {
        MulPositive(xs[0], Product(xs[1..]));
        forall k | 0 <= k < |xs| ensures xs[k] != 0 {
          if k > 0 {
            assert xs[k] == xs[1..][k - 1];
          }
        }
      }
    }
  }

  lemma MulPositive(a: nat, b: nat)
    requires a > 0 && b > 0
    ensures a * b > 0
  {
  }

  /** The number written by the numbers' decimal forms one after the
      other, computed by shifting. */
  function Kerned(ns: seq<nat>): nat
    decreases |ns|
  {
    if |ns| == 0 then 0
    else Kerned(ns[..|ns| - 1]) * Pow10(|Decimal(ns[|ns| - 1])|) + ns[|ns| - 1]
  }

  /** The decimal forms joined with nothing between them. */
  function JoinDecimals(ns: seq<nat>): (s: string)
    ensures AllDigits(s)
    ensures |ns| > 0 ==> |s| > 0
    decreases |ns|
  {
    if |ns| == 0 then ""
    else
      var s := JoinDecimals(ns[..|ns| - 1]) + Decimal(ns[|ns| - 1]);
      AllDigitsAppend(JoinDecimals(ns[..|ns| - 1]), Decimal(ns[|ns| - 1]));
      s
  }

  /** Reading the joined decimal forms gives the shifted sum. */
  lemma {:induction false} JoinDecimalsValue(ns: seq<nat>)
    ensures DecimalValue(JoinDecimals(ns)) == Kerned(ns)
    decreases |ns|
  {
    if |ns| > 0 {
      var init := ns[..|ns| - 1];
      var last := ns[|ns| - 1];
      JoinDecimalsValue(init);
      DecimalValueAppend(JoinDecimals(init), Decimal(last));
      DecimalRoundTrip(last);
    }
  }

  /** Part two: the times as one number and the distances as one number,
      one race. An empty table has no number to read. */
  function Solution2(races: seq<Race>): (r: Option<nat>)
    ensures r.Some? <==> |races| > 0
    ensures r.Some? ==> r.value == Ways(Kerned(Times(races)), Kerned(Distances(races)))
  {
    var time := ParseUnsigned(JoinDecimals(Times(races)));
    var dist := ParseUnsigned(JoinDecimals(Distances(races)));
    JoinDecimalsValue(Times(races));
    JoinDecimalsValue(Distances(races));
    match (time, dist)
    case (Some(t), Some(d)) => Some(Ways(t, d))
    case _ => None
  }

  // ---------------------------------------------------------------------
  // The puzzle's example
  // ---------------------------------------------------------------------

  /** Three races: 4, 8 and 9 ways to win, product 288. */
  lemma Solution1Example(races: seq<Race>)
    requires races == [Race(7, 9), Race(15, 40), Race(30, 200)]
    ensures Solution1(races) == 288
  {
    WaysFromShortest(7, 9, 2);
    WaysFromShortest(15, 40, 4);
    WaysFromShortest(30, 200, 11);
    var ws := WaysPerRace(races);
    assert ws[0] == 4 && ws[1] == 8 && ws[2] == 9;
    assert ws[1..][1..][1..] == [];
    assert Product(ws[1..][1..]) == 9;
    assert Product(ws[1..]) == 72;
  }

  /** The same races read as one: 71530 ms against 940200 mm. */
  lemma Solution2Example(races: seq<Race>)
    requires races == [Race(7, 9), Race(15, 40), Race(30, 200)]
    ensures Solution2(races) == Some(71503)
  {
    var ts := Times(races);
    var ds := Distances(races);
    assert ts == [7, 15, 30] && ds == [9, 40, 200];
    DecimalLength(7, 1);
    DecimalLength(15, 2);
    DecimalLength(30, 2);
    KernedSnoc([], 7);
    KernedSnoc([7], 15);
    KernedSnoc([7, 15], 30);
    assert [7, 15] + [30] == ts;
    DecimalLength(9, 1);
    DecimalLength(40, 2);
    DecimalLength(200, 3);
    KernedSnoc([], 9);
    KernedSnoc([9], 40);
    KernedSnoc([9, 40], 200);
    assert [9, 40] + [200] == ds;
    WaysFromShortest(71530, 940200, 14);
  }

  lemma KernedSnoc(ns: seq<nat>, n: nat)
    ensures Kerned(ns + [n]) == Kerned(ns) * Pow10(|Decimal(n)|) + n
  {
    assert (ns + [n])[..|ns|] == ns;
  }

  /** A number in `[10^(k-1), 10^k)` has `k` decimal digits. */
  lemma {:induction false} DecimalLength(n: nat, k: nat)
    requires k >= 1 && n < Pow10(k) && (k == 1 || Pow10(k - 1) <= n)
    ensures |Decimal(n)| == k
  {
    if k > 1 {
      DecimalLength(n / 10, k - 1);
    }
  }
}
