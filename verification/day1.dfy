/**
 * Day 1: Trebuchet calibration. Every occurrence of a digit or a spelled-out
 * digit ("one" .. "nine") is found with its position; a line's calibration
 * value is ten times the value found leftmost plus the value found
 * rightmost, and the answer is the sum over the lines.
 */
module Day1 {
  import opened Common

  /** A pattern and the digit it stands for. */
  datatype Numberish = Numberish(pattern: string, value: nat)

  /** The patterns in the order they are searched. */
  const Numberishes: seq<Numberish> := [
    Numberish("one", 1), Numberish("1", 1),
    Numberish("two", 2), Numberish("2", 2),
    Numberish("three", 3), Numberish("3", 3),
    Numberish("four", 4), Numberish("4", 4),
    Numberish("five", 5), Numberish("5", 5),
    Numberish("six", 6), Numberish("6", 6),
    Numberish("seven", 7), Numberish("7", 7),
    Numberish("eight", 8), Numberish("8", 8),
    Numberish("nine", 9), Numberish("9", 9)
  ]

  /** A position found by the scan and the digit found there. */
  datatype Found = Found(index: nat, value: nat)

  /** `p` occurs in `s` starting at `i`. */
  predicate OccursAt(s: string, p: string, i: nat) {
    i + |p| <= |s| && s[i..i + |p|] == p
  }

  // ---------------------------------------------------------------------
  // Finding every occurrence of one pattern
  // ---------------------------------------------------------------------

  /** Left-to-right search for `p` from position `i`, resuming after the
      end of each match, as `str::match_indices` does. */
  function MatchIndices(s: string, p: string, i: nat): (idx: seq<nat>)
    requires |p| > 0
    ensures forall k :: 0 <= k < |idx| ==> i <= idx[k] && OccursAt(s, p, idx[k])
    ensures forall k :: 0 < k < |idx| ==> idx[k - 1] + |p| <= idx[k]
    decreases |s| - i
  {
    if i + |p| > |s| then []
    else if OccursAt(s, p, i) then [i] + MatchIndices(s, p, i + |p|)
    else MatchIndices(s, p, i + 1)
  }

  /** No proper prefix of `p` is also a suffix, so two occurrences of `p`
      can never overlap. */
  predicate NoBorder(p: string) {
    forall d :: 0 < d < |p| ==> p[d..] != p[..|p| - d]
  }

  /** The first character occurs nowhere else in `p`. */
  predicate HeadUnique(p: string) {
    |p| > 0 && forall i :: 0 < i < |p| ==> p[i] != p[0]
  }

  /** The last character occurs nowhere else in `p`. */
  predicate LastUnique(p: string) {
    |p| > 0 && forall i :: 0 <= i < |p| - 1 ==> p[i] != p[|p| - 1]
  }

  /** A pattern whose first or last character is unique has no border. */
  lemma UniqueEndNoBorder(p: string)
    requires HeadUnique(p) || LastUnique(p)
    ensures NoBorder(p)
  {
    forall d | 0 < d < |p| ensures p[d..] != p[..|p| - d] {
      if HeadUnique(p) {
        assert p[d..][0] == p[d];
      } else {
        assert p[d..][|p| - d - 1] == p[|p| - 1];
      }
    }
  }

  /** Two occurrences of a border-free pattern are at least its length apart. */
  lemma OccurrencesApart(s: string, p: string, i: nat, j: nat)
    requires NoBorder(p) && OccursAt(s, p, i) && OccursAt(s, p, j) && i < j
    ensures i + |p| <= j
  {
    if j < i + |p| {
      ShiftedOccurrence(s, p, i, j);
      assert false;
    }
  }

  /** Two occurrences of `p` less than its length apart make the part of
      `p` after the shift equal to the part before it. */
  lemma ShiftedOccurrence(s: string, p: string, i: nat, j: nat)
    requires OccursAt(s, p, i) && OccursAt(s, p, j) && i < j < i + |p|
    ensures 0 < j - i < |p| && p[j - i..] == p[..|p| - (j - i)]
  {
    var d := j - i;
    forall t | 0 <= t < |p| - d ensures p[d..][t] == p[..|p| - d][t] {
      assert p[d + t] == s[i + d + t];
      assert s[j + t] == p[t];
    }
  }

  /** For a border-free pattern the scan misses nothing: it reports exactly
      the occurrences at or after `i`. */
  lemma {:induction false} MatchIndicesComplete(s: string, p: string, i: nat, j: nat)
    requires |p| > 0 && NoBorder(p)
    ensures j in MatchIndices(s, p, i) <==> i <= j && OccursAt(s, p, j)
    decreases |s| - i
  {
    if i + |p| <= |s| {
      if OccursAt(s, p, i) {
        MatchIndicesComplete(s, p, i + |p|, j);
        if i < j && OccursAt(s, p, j) {
          OccurrencesApart(s, p, i, j);
        }
      } else {
        MatchIndicesComplete(s, p, i + 1, j);
      }
    }
  }

  // ---------------------------------------------------------------------
  // Finding every digit
  // ---------------------------------------------------------------------

  /** Two patterns that differ in their first or second character: neither
      is a prefix of the other. */
  predicate Differ(p: string, q: string) {
    |p| > 0 && |q| > 0 && (p[0] != q[0] || (|p| > 1 && |q| > 1 && p[1] != q[1]))
  }

  /** The table properties the scan relies on: patterns with a unique first
      or last character (so border-free) for the digits 1 to 9, any two
      telling themselves apart within two characters. */
  predicate ValidTable(tbl: seq<Numberish>) {
    && (forall k :: 0 <= k < |tbl| ==>
          (HeadUnique(tbl[k].pattern) || LastUnique(tbl[k].pattern)) && 1 <= tbl[k].value <= 9)
    && (forall m, n :: 0 <= m < |tbl| && 0 <= n < |tbl| && m != n ==>
          Differ(tbl[m].pattern, tbl[n].pattern))
  }

  /** Pairs each position with the digit `v`. */
  function Tag(idx: seq<nat>, v: nat): (fs: seq<Found>)
    ensures |fs| == |idx|
    ensures forall k :: 0 <= k < |fs| ==> fs[k] == Found(idx[k], v)
  {
    if |idx| == 0 then [] else [Found(idx[0], v)] + Tag(idx[1..], v)
  }

  /** The matches of the patterns from the `k`-th on, pattern by pattern. */
  function FindFrom(tbl: seq<Numberish>, s: string, k: nat): seq<Found>
    requires ValidTable(tbl) && k <= |tbl|
    decreases |tbl| - k
  {
    if k == |tbl| then []
    else Tag(MatchIndices(s, tbl[k].pattern, 0), tbl[k].value) + FindFrom(tbl, s, k + 1)
  }

  /** Every (position, digit) pair found in a line, pattern by pattern in
      table order. The program's table is `Numberishes`. */
  function FindNumberishes(tbl: seq<Numberish>, s: string): (fs: seq<Found>)
    requires ValidTable(tbl)
    ensures forall k :: 0 <= k < |fs| ==> Spells(tbl, s, fs[k].index, fs[k].value)
  {
    var fs := FindFrom(tbl, s, 0);
    assert forall k :: 0 <= k < |fs| ==> Spells(tbl, s, fs[k].index, fs[k].value) by {
      forall k | 0 <= k < |fs| ensures Spells(tbl, s, fs[k].index, fs[k].value) {
        FindFromSpec(tbl, s, 0, fs[k]);
      }
    }
    fs
  }

  /** Some pattern of the table for digit `d` occurs at `i`. */
  ghost predicate Spells(tbl: seq<Numberish>, s: string, i: nat, d: nat) {
    exists m: nat :: PatternAt(tbl, s, m, i) && tbl[m].value == d
  }

  /** No pattern of the table occurs before `i`. */
  ghost predicate NothingBefore(tbl: seq<Numberish>, s: string, i: nat) {
    forall j: nat, n: nat :: j < i ==> !PatternAt(tbl, s, n, j)
  }

  /** No pattern of the table occurs after `i`. */
  ghost predicate NothingAfter(tbl: seq<Numberish>, s: string, i: nat) {
    forall j: nat, n: nat :: j > i ==> !PatternAt(tbl, s, n, j)
  }

  /** Pattern `k` of the table occurs at `i`. */
  predicate PatternAt(tbl: seq<Numberish>, s: string, k: nat, i: nat) {
    k < |tbl| && OccursAt(s, tbl[k].pattern, i)
  }

  lemma {:induction false} FindFromSpec(tbl: seq<Numberish>, s: string, k: nat, f: Found)
    requires ValidTable(tbl) && k <= |tbl|
    ensures f in FindFrom(tbl, s, k) <==>
      exists m: nat :: k <= m && PatternAt(tbl, s, m, f.index) && tbl[m].value == f.value
    decreases |tbl| - k
  {
    if k < |tbl| {
      var tagged := Tag(MatchIndices(s, tbl[k].pattern, 0), tbl[k].value);
      assert FindFrom(tbl, s, k) == tagged + FindFrom(tbl, s, k + 1);
      FindFromSpec(tbl, s, k + 1, f);
      TaggedSpec(tbl, s, k, f);
    }
  }

  /** The pairs found for pattern `k` are its occurrences with its digit. */
  lemma TaggedSpec(tbl: seq<Numberish>, s: string, k: nat, f: Found)
    requires ValidTable(tbl) && k < |tbl|
    ensures f in Tag(MatchIndices(s, tbl[k].pattern, 0), tbl[k].value) <==>
      PatternAt(tbl, s, k, f.index) && tbl[k].value == f.value
  {
    var p := tbl[k].pattern;
    UniqueEndNoBorder(p);
    var idx := MatchIndices(s, p, 0);
    var tagged := Tag(idx, tbl[k].value);
    MatchIndicesComplete(s, p, 0, f.index);
    if f in tagged {
      var j :| 0 <= j < |tagged| && tagged[j] == f;
      assert idx[j] == f.index;
    }
    if PatternAt(tbl, s, k, f.index) && tbl[k].value == f.value {
      var j :| 0 <= j < |idx| && idx[j] == f.index;
      assert tagged[j] == f;
    }
  }

  /** The scan finds a pair exactly when some pattern for that digit occurs
      at that position. */
  lemma FindNumberishesSpec(tbl: seq<Numberish>, s: string, f: Found)
    requires ValidTable(tbl)
    ensures f in FindNumberishes(tbl, s) <==>
      exists m: nat :: PatternAt(tbl, s, m, f.index) && tbl[m].value == f.value
  {
    FindFromSpec(tbl, s, 0, f);
  }

  /** At most one pattern of a valid table matches at any position. */
  lemma PatternsExclusive(tbl: seq<Numberish>, s: string, i: nat, m: nat, n: nat)
    requires ValidTable(tbl) && PatternAt(tbl, s, m, i) && PatternAt(tbl, s, n, i)
    ensures m == n
  {
    var p, q := tbl[m].pattern, tbl[n].pattern;
    assert p[0] == s[i] == q[0] by {
      assert p == s[i..i + |p|] && q == s[i..i + |q|];
    }
    if |p| > 1 && |q| > 1 {
      assert p[1] == s[i + 1] == q[1] by {
        assert p == s[i..i + |p|] && q == s[i..i + |q|];
      }
    }
  }

  // ---------------------------------------------------------------------
  // First and last digit
  // ---------------------------------------------------------------------

  /** The leftmost entry, the earliest one among equal positions (what a
      stable sort by position puts first). */
  function MinEntry(fs: seq<Found>): (m: Found)
    requires |fs| > 0
    ensures m in fs
    ensures forall k :: 0 <= k < |fs| ==> m.index <= fs[k].index
  {
    if |fs| == 1 then fs[0]
    else
      var rest := MinEntry(fs[1..]);
      if fs[0].index <= rest.index then fs[0] else rest
  }

  /** The rightmost entry, the latest one among equal positions (what a
      stable sort by position puts last). */
  function MaxEntry(fs: seq<Found>): (m: Found)
    requires |fs| > 0
    ensures m in fs
    ensures forall k :: 0 <= k < |fs| ==> fs[k].index <= m.index
  {
    if |fs| == 1 then fs[0]
    else
      var rest := MaxEntry(fs[1..]);
      if rest.index >= fs[0].index then rest else fs[0]
  }

  /** Some digit or digit name occurs in the line; the program panics on a
      line without one. */
  predicate HasDigit(tbl: seq<Numberish>, s: string)
    requires ValidTable(tbl)
  {
    |FindNumberishes(tbl, s)| > 0
  }

  /** The digit spelled at the leftmost position where any pattern occurs. */
  function FirstDigit(tbl: seq<Numberish>, s: string): (d: nat)
    requires ValidTable(tbl) && HasDigit(tbl, s)
    ensures exists i: nat :: Spells(tbl, s, i, d) && NothingBefore(tbl, s, i)
  {
    var first := MinEntry(FindNumberishes(tbl, s));
    assert NothingBefore(tbl, s, first.index) by {
      forall j: nat, n: nat | j < first.index ensures !PatternAt(tbl, s, n, j) {
        if PatternAt(tbl, s, n, j) {
          FindNumberishesSpec(tbl, s, Found(j, tbl[n].value));
          assert false;
        }
      }
    }
    first.value
  }

  /** The digit spelled at the rightmost position where any pattern occurs. */
  function LastDigit(tbl: seq<Numberish>, s: string): (d: nat)
    requires ValidTable(tbl) && HasDigit(tbl, s)
    ensures exists i: nat :: Spells(tbl, s, i, d) && NothingAfter(tbl, s, i)
  {
    var last := MaxEntry(FindNumberishes(tbl, s));
    assert NothingAfter(tbl, s, last.index) by {
      forall j: nat, n: nat | j > last.index ensures !PatternAt(tbl, s, n, j) {
        if PatternAt(tbl, s, n, j) {
          FindNumberishesSpec(tbl, s, Found(j, tbl[n].value));
          assert false;
        }
      }
    }
    last.value
  }

  /** An entry of the scan names the pattern found there. */
  lemma FoundSound(tbl: seq<Numberish>, s: string, f: Found) returns (m: nat)
    requires ValidTable(tbl) && f in FindNumberishes(tbl, s)
    ensures PatternAt(tbl, s, m, f.index) && tbl[m].value == f.value
  {
    FindNumberishesSpec(tbl, s, f);
    m :| PatternAt(tbl, s, m, f.index) && tbl[m].value == f.value;
  }

  /** Every pattern occurrence is an entry of the scan. */
  lemma FoundComplete(tbl: seq<Numberish>, s: string, i: nat, m: nat) returns (k: nat)
    requires ValidTable(tbl) && PatternAt(tbl, s, m, i)
    ensures k < |FindNumberishes(tbl, s)| && FindNumberishes(tbl, s)[k] == Found(i, tbl[m].value)
  {
    FindNumberishesSpec(tbl, s, Found(i, tbl[m].value));
    k :| 0 <= k < |FindNumberishes(tbl, s)| && FindNumberishes(tbl, s)[k] == Found(i, tbl[m].value);
  }

  /** The first digit is the one spelled by the leftmost pattern occurrence
      in the line. */
  lemma FirstDigitSpec(tbl: seq<Numberish>, s: string, i: nat, m: nat)
    requires ValidTable(tbl) && PatternAt(tbl, s, m, i)
    requires forall j: nat, n: nat :: j < i ==> !PatternAt(tbl, s, n, j)
    ensures HasDigit(tbl, s) && FirstDigit(tbl, s) == tbl[m].value
  {
    var k := FoundComplete(tbl, s, i, m);
    var first := MinEntry(FindNumberishes(tbl, s));
    var n := FoundSound(tbl, s, first);
    assert first.index == i;
    PatternsExclusive(tbl, s, i, m, n);
  }

  /** The last digit is the one spelled by the rightmost pattern occurrence
      in the line. */
  lemma LastDigitSpec(tbl: seq<Numberish>, s: string, i: nat, m: nat)
    requires ValidTable(tbl) && PatternAt(tbl, s, m, i)
    requires forall j: nat, n: nat :: j > i ==> !PatternAt(tbl, s, n, j)
    ensures HasDigit(tbl, s) && LastDigit(tbl, s) == tbl[m].value
  {
    var k := FoundComplete(tbl, s, i, m);
    var last := MaxEntry(FindNumberishes(tbl, s));
    var n := FoundSound(tbl, s, last);
    assert last.index == i;
    PatternsExclusive(tbl, s, i, m, n);
  }

  // ---------------------------------------------------------------------
  // Positions as byte offsets
  // ---------------------------------------------------------------------

  /** Every entry of the scan starts inside the line. */
  lemma FoundInLine(tbl: seq<Numberish>, s: string)
    requires ValidTable(tbl)
    ensures forall k :: 0 <= k < |FindNumberishes(tbl, s)| ==> FindNumberishes(tbl, s)[k].index < |s|
  {
    var fs := FindNumberishes(tbl, s);
    forall k | 0 <= k < |fs| ensures fs[k].index < |s| {
      var m := FoundSound(tbl, s, fs[k]);
    }
  }

  /** The scan with the positions the program reports: `match_indices`
      gives byte offsets into the UTF-8 line. The patterns are ASCII, and
      an ASCII byte never occurs inside a longer UTF-8 sequence, so a match
      found byte by byte starts where the character-level match starts; only
      the number reported for that place differs. The entries keep their
      digits and their order by position. */
  function FindNumberishesBytes(tbl: seq<Numberish>, s: string): (bs: seq<Found>)
    requires ValidTable(tbl)
    ensures |bs| == |FindNumberishes(tbl, s)|
    ensures forall k :: 0 <= k < |bs| ==>
      && FindNumberishes(tbl, s)[k].index <= bs[k].index
      && bs[k].value == FindNumberishes(tbl, s)[k].value
    ensures forall k, m :: 0 <= k < |bs| && 0 <= m < |bs| ==>
      (bs[k].index < bs[m].index <==> FindNumberishes(tbl, s)[k].index < FindNumberishes(tbl, s)[m].index)
  {
    var fs := FindNumberishes(tbl, s);
    FoundInLine(tbl, s);
    var bs := seq(|fs|, k requires 0 <= k < |fs| => Found(ByteOffset(s, fs[k].index), fs[k].value));
    assert forall k, m :: 0 <= k < |bs| && 0 <= m < |bs| ==>
      (bs[k].index < bs[m].index <==> fs[k].index < fs[m].index) by {
      forall k, m | 0 <= k < |bs| && 0 <= m < |bs|
        ensures bs[k].index < bs[m].index <==> fs[k].index < fs[m].index
      {
        ByteOffsetOrder(s, fs[k].index, fs[m].index);
      }
    }
    bs
  }

  /** Two entries at one position carry one digit. */
  lemma SamePlaceSameDigit(tbl: seq<Numberish>, s: string, f: Found, g: Found)
    requires ValidTable(tbl) && f in FindNumberishes(tbl, s) && g in FindNumberishes(tbl, s)
    requires f.index == g.index
    ensures f.value == g.value
  {
    var m := FoundSound(tbl, s, f);
    var n := FoundSound(tbl, s, g);
    PatternsExclusive(tbl, s, f.index, m, n);
  }

  /** Taking the first and last entry by byte offset, as the program does,
      gives the same digits as by character index, so the calibration value
      does not depend on how positions are counted. */
  lemma ByteOffsetsKeepDigits(tbl: seq<Numberish>, s: string)
    requires ValidTable(tbl) && HasDigit(tbl, s)
    ensures MinEntry(FindNumberishesBytes(tbl, s)).value == FirstDigit(tbl, s)
    ensures MaxEntry(FindNumberishesBytes(tbl, s)).value == LastDigit(tbl, s)
  {
    FirstByBytes(tbl, s);
    LastByBytes(tbl, s);
  }

  lemma FirstByBytes(tbl: seq<Numberish>, s: string)
    requires ValidTable(tbl) && HasDigit(tbl, s)
    ensures MinEntry(FindNumberishesBytes(tbl, s)).value == MinEntry(FindNumberishes(tbl, s)).value
  {
    var fs, bs := FindNumberishes(tbl, s), FindNumberishesBytes(tbl, s);
    var k := MinAgrees(fs, bs);
    SamePlaceSameDigit(tbl, s, fs[k], MinEntry(fs));
  }

  lemma LastByBytes(tbl: seq<Numberish>, s: string)
    requires ValidTable(tbl) && HasDigit(tbl, s)
    ensures MaxEntry(FindNumberishesBytes(tbl, s)).value == MaxEntry(FindNumberishes(tbl, s)).value
  {
    var fs, bs := FindNumberishes(tbl, s), FindNumberishesBytes(tbl, s);
    var k := MaxAgrees(fs, bs);
    SamePlaceSameDigit(tbl, s, fs[k], MaxEntry(fs));
  }

  /** Two lists whose positions are ordered alike have their leftmost
      entries at the same place in the list. */
  lemma MinAgrees(fs: seq<Found>, bs: seq<Found>) returns (k: nat)
    requires |fs| == |bs| > 0
    requires forall i, j :: 0 <= i < |bs| && 0 <= j < |bs| ==> (bs[i].index < bs[j].index <==> fs[i].index < fs[j].index)
    ensures k < |fs| && bs[k] == MinEntry(bs) && fs[k] in fs && fs[k].index == MinEntry(fs).index
  {
    k :| 0 <= k < |bs| && bs[k] == MinEntry(bs);
    var a :| 0 <= a < |fs| && fs[a] == MinEntry(fs);
    assert MinEntry(bs).index <= bs[a].index;
  }

  /** Two lists whose positions are ordered alike have their rightmost
      entries at the same place in the list. */
  lemma MaxAgrees(fs: seq<Found>, bs: seq<Found>) returns (k: nat)
    requires |fs| == |bs| > 0
    requires forall i, j :: 0 <= i < |bs| && 0 <= j < |bs| ==> (bs[i].index < bs[j].index <==> fs[i].index < fs[j].index)
    ensures k < |fs| && bs[k] == MaxEntry(bs) && fs[k] in fs && fs[k].index == MaxEntry(fs).index
  {
    k :| 0 <= k < |bs| && bs[k] == MaxEntry(bs);
    var b :| 0 <= b < |fs| && fs[b] == MaxEntry(fs);
    assert bs[b].index <= MaxEntry(bs).index;
  }

  /** An entry of the scan appears in the program's scan at the byte
      offset of its position. */
  lemma FoundBytes(tbl: seq<Numberish>, s: string, f: Found)
    requires ValidTable(tbl) && f in FindNumberishes(tbl, s)
    ensures f.index < |s| && Found(ByteOffset(s, f.index), f.value) in FindNumberishesBytes(tbl, s)
  {
    var fs := FindNumberishes(tbl, s);
    FoundInLine(tbl, s);
    var k :| 0 <= k < |fs| && fs[k] == f;
    assert FindNumberishesBytes(tbl, s)[k] == Found(ByteOffset(s, f.index), f.value);
  }

  /** On the line "€1" the digit 1 is character 1 of the line but byte 3,
      since the euro sign takes three bytes. Stated for any valid table
      with the pattern "1" for the digit 1, as the program's second entry
      is. */
  lemma EuroOneOffsets(tbl: seq<Numberish>, m: nat, s: string)
    requires ValidTable(tbl) && m < |tbl| && tbl[m] == Numberish("1", 1)
    requires s == [0x20AC as char, '1']
    ensures Found(1, 1) in FindNumberishes(tbl, s)
    ensures Found(3, 1) in FindNumberishesBytes(tbl, s)
  {
    assert PatternAt(tbl, s, m, 1) by {
      assert s[1..2] == "1";
    }
    var k := FoundComplete(tbl, s, 1, m);
    FoundBytes(tbl, s, Found(1, 1));
    assert ByteOffset(s, 1) == 3;
  }

  /** Every digit found is between 1 and 9. */
  lemma FoundDigitRange(tbl: seq<Numberish>, s: string, f: Found)
    requires ValidTable(tbl) && f in FindNumberishes(tbl, s)
    ensures 1 <= f.value <= 9
  {
    var m := FoundSound(tbl, s, f);
  }

  /** The calibration value of a line: a two-digit number without zeros. */
  function BothDigits(tbl: seq<Numberish>, s: string): (v: nat)
    requires ValidTable(tbl) && HasDigit(tbl, s)
    ensures 11 <= v <= 99 && v % 10 != 0
  {
    FoundDigitRange(tbl, s, MinEntry(FindNumberishes(tbl, s)));
    FoundDigitRange(tbl, s, MaxEntry(FindNumberishes(tbl, s)));
    10 * FirstDigit(tbl, s) + LastDigit(tbl, s)
  }

  /** Every line holds a digit. */
  predicate AllHaveDigits(tbl: seq<Numberish>, lines: seq<string>)
    requires ValidTable(tbl)
  {
    forall k :: 0 <= k < |lines| ==> HasDigit(tbl, lines[k])
  }

  /** The sum of the calibration values of the lines. */
  function AddAllLines(tbl: seq<Numberish>, lines: seq<string>): (total: nat)
    requires ValidTable(tbl) && AllHaveDigits(tbl, lines)
    ensures total == 0 <==> |lines| == 0
  {
    if |lines| == 0 then 0 else BothDigits(tbl, lines[0]) + AddAllLines(tbl, lines[1..])
  }

  /** The total over a concatenation of documents is the sum of the totals. */
  lemma {:induction false} AddAllLinesAppend(tbl: seq<Numberish>, a: seq<string>, b: seq<string>)
    requires ValidTable(tbl) && AllHaveDigits(tbl, a) && AllHaveDigits(tbl, b)
    ensures AllHaveDigits(tbl, a + b)
    ensures AddAllLines(tbl, a + b) == AddAllLines(tbl, a) + AddAllLines(tbl, b)
  {
    if |a| > 0 {
      assert (a + b)[1..] == a[1..] + b;
      AddAllLinesAppend(tbl, a[1..], b);
    } else {
      assert a + b == b;
    }
  }

  /** Each line contributes between 11 and 99. */
  lemma {:induction false} AddAllLinesBounds(tbl: seq<Numberish>, lines: seq<string>)
    requires ValidTable(tbl) && AllHaveDigits(tbl, lines)
    ensures 11 * |lines| <= AddAllLines(tbl, lines) <= 99 * |lines|
  {
    if |lines| > 0 {
      AddAllLinesBounds(tbl, lines[1..]);
    }
  }

  // ---------------------------------------------------------------------
  // The program's table
  // ---------------------------------------------------------------------

  lemma NumberishesPatterns(k: nat)
    requires k < |Numberishes|
    ensures HeadUnique(Numberishes[k].pattern) || LastUnique(Numberishes[k].pattern)
    ensures 1 <= Numberishes[k].value <= 9
  {
  }

  lemma NumberishesDifferLow(m: nat, n: nat)
    requires m < 9 && n < |Numberishes| && m != n
    ensures Differ(Numberishes[m].pattern, Numberishes[n].pattern)
  {
  }

  lemma NumberishesDifferHigh(m: nat, n: nat)
    requires 9 <= m < |Numberishes| && n < |Numberishes| && m != n
    ensures Differ(Numberishes[m].pattern, Numberishes[n].pattern)
  {
  }

  /** The program's table satisfies what the scan relies on. */
  lemma NumberishesValid()
    ensures ValidTable(Numberishes)
  {
    forall k | 0 <= k < |Numberishes| ensures
      (HeadUnique(Numberishes[k].pattern) || LastUnique(Numberishes[k].pattern)) && 1 <= Numberishes[k].value <= 9
    {
      NumberishesPatterns(k);
    }
    forall m, n | 0 <= m < |Numberishes| && 0 <= n < |Numberishes| && m != n
      ensures Differ(Numberishes[m].pattern, Numberishes[n].pattern)
    {
      if m < 9 { NumberishesDifferLow(m, n); } else { NumberishesDifferHigh(m, n); }
    }
  }

  // ---------------------------------------------------------------------
  // Examples
  // ---------------------------------------------------------------------

  /** A digit repeated after a spelled-out one: "73eight7" gives 77. The
      line and the table are parameters so that the proof reasons from the
      occurrences rather than by running the scan. */
  lemma Regression73Eight7(tbl: seq<Numberish>, s: string)
    requires tbl == Numberishes && s == "73eight7"
    ensures ValidTable(tbl) && HasDigit(tbl, s) && BothDigits(tbl, s) == 77
  {
    NumberishesValid();
    assert PatternAt(tbl, s, 13, 0);
    assert PatternAt(tbl, s, 13, 7);
    forall j: nat, n: nat | j > 7 ensures !PatternAt(tbl, s, n, j) {
      if n < |tbl| {
        NumberishesPatterns(n);
      }
    }
    FirstDigitSpec(tbl, s, 0, 13);
    LastDigitSpec(tbl, s, 7, 13);
  }

  /** Overlapping names are all found: in "eightwothree" the scan sees
      "eight" at 0, "two" at 4 (sharing the 't') and "three" at 7, and the
      line gives 83. */
  lemma OverlappingNames(tbl: seq<Numberish>, s: string)
    requires tbl == Numberishes && s == "eightwothree"
    ensures ValidTable(tbl)
    ensures Found(0, 8) in FindNumberishes(tbl, s)
    ensures Found(4, 2) in FindNumberishes(tbl, s)
    ensures Found(7, 3) in FindNumberishes(tbl, s)
    ensures HasDigit(tbl, s) && BothDigits(tbl, s) == 83
  {
    NumberishesValid();
    assert PatternAt(tbl, s, 14, 0);
    assert PatternAt(tbl, s, 2, 4);
    assert PatternAt(tbl, s, 4, 7);
    var eight := FoundComplete(tbl, s, 0, 14);
    var two := FoundComplete(tbl, s, 4, 2);
    var three := FoundComplete(tbl, s, 7, 4);
    forall j: nat, n: nat | j > 7 ensures !PatternAt(tbl, s, n, j) {
      NothingAfterTwo(tbl, s, j, n);
    }
    FirstDigitSpec(tbl, s, 0, 14);
    LastDigitSpec(tbl, s, 7, 4);
  }

  /** Past the "two" of "eightwothree" only the tail of "three" is left,
      and no name or digit starts there. */
  lemma NothingAfterTwo(tbl: seq<Numberish>, s: string, j: nat, n: nat)
    requires tbl == Numberishes && s == "eightwothree" && j > 7
    ensures !PatternAt(tbl, s, n, j)
  {
    if PatternAt(tbl, s, n, j) {
      PatternStart(n);
      assert false;
    }
  }

  /** No name or digit starts with 'h' or 'r', and the only one starting
      with 'e' is "eight", five letters long. */
  lemma PatternStart(n: nat)
    requires n < |Numberishes|
    ensures |Numberishes[n].pattern| > 0
    ensures Numberishes[n].pattern[0] != 'h' && Numberishes[n].pattern[0] != 'r'
    ensures Numberishes[n].pattern[0] == 'e' ==> |Numberishes[n].pattern| == 5
  {
  }
}
