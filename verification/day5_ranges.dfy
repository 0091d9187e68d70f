/**
 * Day 5, part two on whole ranges. The code finds the lowest location of a
 * seed range by visiting every seed (the brute-force loop that sits
 * commented out in `main`). This module pushes ranges through the stages
 * instead, splitting a range only where a rule's source range begins or
 * ends, and proves that the two agree: every piece of output is the image
 * of its pre-image under `Translate`, every input value lands in some
 * output range, and so the lowest output start is the lowest location.
 */
module Day5Ranges {
  import opened Common
  import opened Day5

  /** The values of `from` are sent to `to + (v - from.start)`. */
  datatype Piece = Piece(from: Range, to: nat)

  function Length(r: Range): nat {
    if r.start < r.end then r.end - r.start else 0
  }

  function Image(p: Piece): Range {
    Range(p.to, p.to + Length(p.from))
  }

  function Max(a: nat, b: nat): nat {
    if a < b then b else a
  }

  function Min(a: nat, b: nat): nat {
    if a < b then a else b
  }

  function PiecesLength(ps: seq<Piece>): nat {
    if |ps| == 0 then 0 else Length(ps[0].from) + PiecesLength(ps[1..])
  }

  lemma {:induction false} PiecesLengthAppend(xs: seq<Piece>, ys: seq<Piece>)
    ensures PiecesLength(xs + ys) == PiecesLength(xs) + PiecesLength(ys)
  {
    if |xs| > 0 {
      assert (xs + ys)[1..] == xs[1..] + ys;
      PiecesLengthAppend(xs[1..], ys);
    } else {
      assert xs + ys == ys;
    }
  }

  /** Splits [lo, hi) against the rules of a stage, first rule first: the
      part a rule covers is mapped by that rule, the parts to its left and
      right go on to the remaining rules, and whatever no rule covers is
      kept as it is. Every piece is non-empty, and the pieces' lengths add
      up to the length of [lo, hi). */
  function SplitRange(stage: Stage, lo: nat, hi: nat): (ps: seq<Piece>)
    ensures forall k :: 0 <= k < |ps| ==> lo <= ps[k].from.start < ps[k].from.end <= hi
    decreases |stage|
  {
    if hi <= lo then []
    else if |stage| == 0 then [Piece(Range(lo, hi), lo)]
    else
      var r := stage[0];
      var left := SplitRange(stage[1..], lo, Min(hi, r.src));
      var right := SplitRange(stage[1..], Max(lo, r.src + r.size), hi);
      left + Inside(r, lo, hi) + right
  }

  /** The part of [lo, hi) that rule `r` covers, mapped by `r`. */
  function Inside(r: Rule, lo: nat, hi: nat): (ps: seq<Piece>)
    ensures |ps| <= 1
  {
    var a := Max(lo, r.src);
    var b := Min(hi, r.src + r.size);
    if a < b then [Piece(Range(a, b), r.dst + (a - r.src))] else []
  }

  /** The three parts of [lo, hi) cut by one rule add up to [lo, hi). */
  lemma InsideLength(r: Rule, lo: nat, hi: nat)
    requires lo < hi
    ensures Length(Range(lo, Min(hi, r.src))) + PiecesLength(Inside(r, lo, hi))
            + Length(Range(Max(lo, r.src + r.size), hi)) == hi - lo
  {
    var inside := Inside(r, lo, hi);
    if |inside| == 1 {
      assert PiecesLength(inside) == Length(inside[0].from) + PiecesLength(inside[1..]);
    }
  }

  /** Coverage is conserved: the pieces' lengths add up to the length of
      [lo, hi). */
  lemma {:induction false} SplitRangeLength(stage: Stage, lo: nat, hi: nat)
    ensures PiecesLength(SplitRange(stage, lo, hi)) == Length(Range(lo, hi))
    decreases |stage|
  {
    if lo < hi && |stage| > 0 {
      var r := stage[0];
      var left := SplitRange(stage[1..], lo, Min(hi, r.src));
      var right := SplitRange(stage[1..], Max(lo, r.src + r.size), hi);
      var inside := Inside(r, lo, hi);
      SplitRangeLength(stage[1..], lo, Min(hi, r.src));
      SplitRangeLength(stage[1..], Max(lo, r.src + r.size), hi);
      PiecesLengthAppend(left, inside);
      PiecesLengthAppend(left + inside, right);
      InsideLength(r, lo, hi);
    }
  }

  /** Every value of every piece lies in [lo, hi), and the piece's offset
      gives exactly the stage's translation of it. */
  lemma {:induction false} SplitRangeSound(stage: Stage, lo: nat, hi: nat, k: nat, v: nat)
    requires k < |SplitRange(stage, lo, hi)|
    requires Contains(SplitRange(stage, lo, hi)[k].from, v)
    ensures lo <= v < hi
    ensures Translate(stage, v) ==
      SplitRange(stage, lo, hi)[k].to + (v - SplitRange(stage, lo, hi)[k].from.start)
    decreases |stage|
  {
    var ps := SplitRange(stage, lo, hi);
    if |stage| > 0 && lo < hi {
      var r := stage[0];
      var inside := Inside(r, lo, hi);
      var left := SplitRange(stage[1..], lo, Min(hi, r.src));
      var right := SplitRange(stage[1..], Max(lo, r.src + r.size), hi);
      assert ps == left + inside + right;
      if k < |left| {
        assert ps[k] == left[k];
        SplitRangeSound(stage[1..], lo, Min(hi, r.src), k, v);
        assert !Covers(r, v);
      } else if k < |left| + |inside| {
        assert ps[k] == inside[0];
        assert Covers(r, v);
      } else {
        var k' := k - |left| - |inside|;
        assert ps[k] == right[k'];
        SplitRangeSound(stage[1..], Max(lo, r.src + r.size), hi, k', v);
        assert !Covers(r, v);
      }
    }
  }

  /** Every value of [lo, hi) lies in some piece; `k` names it. */
  lemma {:induction false} SplitRangeComplete(stage: Stage, lo: nat, hi: nat, v: nat) returns (k: nat)
    requires lo <= v < hi
    ensures k < |SplitRange(stage, lo, hi)| && Contains(SplitRange(stage, lo, hi)[k].from, v)
    decreases |stage|
  {
    if |stage| == 0 {
      k := 0;
    } else {
      var r := stage[0];
      var left := SplitRange(stage[1..], lo, Min(hi, r.src));
      var inside := Inside(r, lo, hi);
      var right := SplitRange(stage[1..], Max(lo, r.src + r.size), hi);
      SplitStep(stage, lo, hi);
      var ps := SplitRange(stage, lo, hi);
      assert ps == left + inside + right;
      if v < r.src {
        k := SplitRangeComplete(stage[1..], lo, Min(hi, r.src), v);
        PickLeft(left, inside, right, k);
        assert ps[k] == left[k];
      } else if v < r.src + r.size {
        InsideContains(r, lo, hi, v);
        PickMiddle(left, inside, right);
        k := |left|;
        assert ps[k] == inside[0];
      } else {
        var j := SplitRangeComplete(stage[1..], Max(lo, r.src + r.size), hi, v);
        PickRight(left, inside, right, j);
        k := |left| + |inside| + j;
        assert ps[k] == right[j];
      }
    }
  }

  /** One rule cuts a non-empty interval into the parts left of it, inside
      it and right of it. */
  lemma SplitStep(stage: Stage, lo: nat, hi: nat)
    requires lo < hi && |stage| > 0
    ensures SplitRange(stage, lo, hi) ==
      SplitRange(stage[1..], lo, Min(hi, stage[0].src)) + Inside(stage[0], lo, hi)
      + SplitRange(stage[1..], Max(lo, stage[0].src + stage[0].size), hi)
  {
  }

  lemma InsideContains(r: Rule, lo: nat, hi: nat, v: nat)
    requires lo <= v < hi && r.src <= v < r.src + r.size
    ensures |Inside(r, lo, hi)| == 1 && Contains(Inside(r, lo, hi)[0].from, v)
  {
  }

  lemma PickLeft<T>(a: seq<T>, b: seq<T>, c: seq<T>, k: nat)
    requires k < |a|
    ensures k < |a + b + c| && (a + b + c)[k] == a[k]
  {
  }

  lemma PickMiddle<T>(a: seq<T>, b: seq<T>, c: seq<T>)
    requires |b| > 0
    ensures |a| < |a + b + c| && (a + b + c)[|a|] == b[0]
  {
  }

  lemma PickRight<T>(a: seq<T>, b: seq<T>, c: seq<T>, j: nat)
    requires j < |c|
    ensures |a| + |b| + j < |a + b + c| && (a + b + c)[|a| + |b| + j] == c[j]
  {
  }

  /** A range that is exactly the source range of a stage's first rule is
      mapped in one piece, without splitting. */
  lemma ExactRuleRangeIsOnePiece(r: Rule, rest: Stage)
    requires r.size > 0
    ensures SplitRange([r] + rest, r.src, r.src + r.size) == [Piece(Range(r.src, r.src + r.size), r.dst)]
  {
    var stage := [r] + rest;
    var hi := r.src + r.size;
    assert stage[1..] == rest;
    assert SplitRange(rest, r.src, r.src) == [];
    assert SplitRange(rest, hi, hi) == [];
  }

  // ---------------------------------------------------------------------
  // Sets of ranges through a stage and through the chain
  // ---------------------------------------------------------------------

  /** `v` lies in one of the ranges. */
  ghost predicate InAny(rs: seq<Range>, v: nat) {
    exists k :: 0 <= k < |rs| && Contains(rs[k], v)
  }

  lemma InAnyAppend(xs: seq<Range>, ys: seq<Range>, v: nat)
    ensures InAny(xs + ys, v) <==> InAny(xs, v) || InAny(ys, v)
  {
    if InAny(xs + ys, v) {
      var k :| 0 <= k < |xs + ys| && Contains((xs + ys)[k], v);
      if k >= |xs| {
        assert (xs + ys)[k] == ys[k - |xs|];
      }
    }
    if InAny(xs, v) {
      var k :| 0 <= k < |xs| && Contains(xs[k], v);
      assert (xs + ys)[k] == xs[k];
    }
    if InAny(ys, v) {
      var k :| 0 <= k < |ys| && Contains(ys[k], v);
      assert (xs + ys)[|xs| + k] == ys[k];
    }
  }

  function Images(ps: seq<Piece>): (rs: seq<Range>)
    ensures |rs| == |ps|
    ensures forall k :: 0 <= k < |ps| ==> rs[k] == Image(ps[k])
  {
    seq(|ps|, k requires 0 <= k < |ps| => Image(ps[k]))
  }

  /** Every range of the set goes through one stage; the results are
      concatenated in input order. */
  function MapRanges(stage: Stage, rs: seq<Range>): seq<Range> {
    if |rs| == 0 then []
    else Images(SplitRange(stage, rs[0].start, rs[0].end)) + MapRanges(stage, rs[1..])
  }

  /** The image of every value of the input set lies in the output set. */
  lemma {:induction false} MapRangesComplete(stage: Stage, rs: seq<Range>, v: nat)
    requires InAny(rs, v)
    ensures InAny(MapRanges(stage, rs), Translate(stage, v))
  {
    var j :| 0 <= j < |rs| && Contains(rs[j], v);
    var head := Images(SplitRange(stage, rs[0].start, rs[0].end));
    InAnyAppend(head, MapRanges(stage, rs[1..]), Translate(stage, v));
    if j == 0 {
      var ps := SplitRange(stage, rs[0].start, rs[0].end);
      var k := SplitRangeComplete(stage, rs[0].start, rs[0].end, v);
      SplitRangeSound(stage, rs[0].start, rs[0].end, k, v);
      assert Contains(head[k], Translate(stage, v));
    } else {
      assert Contains(rs[1..][j - 1], v);
      MapRangesComplete(stage, rs[1..], v);
    }
  }

  /** Every value of the output set is the image of a value of the input set. */
  lemma {:induction false} MapRangesSound(stage: Stage, rs: seq<Range>, w: nat)
    requires InAny(MapRanges(stage, rs), w)
    ensures exists v :: InAny(rs, v) && Translate(stage, v) == w
  {
    var head := Images(SplitRange(stage, rs[0].start, rs[0].end));
    InAnyAppend(head, MapRanges(stage, rs[1..]), w);
    if InAny(head, w) {
      var ps := SplitRange(stage, rs[0].start, rs[0].end);
      var k :| 0 <= k < |head| && Contains(head[k], w);
      var v := ps[k].from.start + (w - ps[k].to);
      assert Contains(ps[k].from, v);
      SplitRangeSound(stage, rs[0].start, rs[0].end, k, v);
      assert Contains(rs[0], v);
      assert InAny(rs, v);
    } else {
      MapRangesSound(stage, rs[1..], w);
      var v :| InAny(rs[1..], v) && Translate(stage, v) == w;
      var j :| 0 <= j < |rs[1..]| && Contains(rs[1..][j], v);
      assert Contains(rs[j + 1], v);
    }
  }

  /** The range set after every stage of the chain, first stage first. */
  function MapRangesAll(stages: seq<Stage>, rs: seq<Range>): seq<Range> {
    if |stages| == 0 then rs else MapRangesAll(stages[1..], MapRanges(stages[0], rs))
  }

  lemma {:induction false} MapRangesAllComplete(stages: seq<Stage>, rs: seq<Range>, v: nat)
    requires InAny(rs, v)
    ensures InAny(MapRangesAll(stages, rs), TranslateAll(stages, v))
  {
    if |stages| > 0 {
      MapRangesComplete(stages[0], rs, v);
      MapRangesAllComplete(stages[1..], MapRanges(stages[0], rs), Translate(stages[0], v));
    }
  }

  lemma {:induction false} MapRangesAllSound(stages: seq<Stage>, rs: seq<Range>, w: nat)
    requires InAny(MapRangesAll(stages, rs), w)
    ensures exists v :: InAny(rs, v) && TranslateAll(stages, v) == w
  {
    if |stages| == 0 {
      assert InAny(rs, w) && TranslateAll(stages, w) == w;
    } else {
      var mid := MapRanges(stages[0], rs);
      MapRangesAllSound(stages[1..], mid, w);
      var u :| InAny(mid, u) && TranslateAll(stages[1..], u) == w;
      MapRangesSound(stages[0], rs, u);
      var v :| InAny(rs, v) && Translate(stages[0], v) == u;
      assert TranslateAll(stages, v) == w;
    }
  }

  // ---------------------------------------------------------------------
  // The lowest location
  // ---------------------------------------------------------------------

  predicate IsEmpty(r: Range) {
    r.end <= r.start
  }

  /** The smallest start among the non-empty ranges; none when every range
      is empty. */
  function LowestStart(rs: seq<Range>): (m: Option<nat>)
    ensures m.None? <==> forall k :: 0 <= k < |rs| ==> IsEmpty(rs[k])
    ensures m.Some? ==> exists k :: 0 <= k < |rs| && !IsEmpty(rs[k]) && rs[k].start == m.value
    ensures m.Some? ==> forall k :: 0 <= k < |rs| && !IsEmpty(rs[k]) ==> m.value <= rs[k].start
  {
    if |rs| == 0 then None
    else
      var rest := LowestStart(rs[1..]);
      assert forall k :: 1 <= k < |rs| ==> rs[k] == rs[1..][k - 1];
      if IsEmpty(rs[0]) then
        rest
      else if rest.None? || rs[0].start <= rest.value then
        Some(rs[0].start)
      else
        rest
  }

  /** The lowest start is the least value of the set. */
  lemma LowestStartIsLeast(rs: seq<Range>)
    ensures LowestStart(rs).None? <==> forall w :: !InAny(rs, w)
    ensures LowestStart(rs).Some? ==> InAny(rs, LowestStart(rs).value)
    ensures LowestStart(rs).Some? ==> forall w :: InAny(rs, w) ==> LowestStart(rs).value <= w
  {
    var m := LowestStart(rs);
    if m.Some? {
      var k :| 0 <= k < |rs| && !IsEmpty(rs[k]) && rs[k].start == m.value;
      assert Contains(rs[k], m.value);
      assert InAny(rs, m.value);
    }
  }

  /** `m` is the least value of `f` over the values of the ranges, or none
      when the ranges hold no value. */
  ghost predicate IsLowest(f: nat -> nat, rs: seq<Range>, m: Option<nat>) {
    match m
    case None => forall s :: !InAny(rs, s)
    case Some(x) =>
      && (exists s :: InAny(rs, s) && f(s) == x)
      && (forall s :: InAny(rs, s) ==> x <= f(s))
  }

  lemma IsLowestUnique(f: nat -> nat, rs: seq<Range>, m1: Option<nat>, m2: Option<nat>)
    requires IsLowest(f, rs, m1) && IsLowest(f, rs, m2)
    ensures m1 == m2
  {
    if m1.Some? {
      var s1 :| InAny(rs, s1) && f(s1) == m1.value;
      assert m2.Some?;
      var s2 :| InAny(rs, s2) && f(s2) == m2.value;
      assert m1.value <= f(s2) && m2.value <= f(s1);
    }
  }

  /** The location of a seed, as a function value. */
  function LocationOf(a: Almanac): (f: nat -> nat)
    ensures forall s :: f(s) == TranslateSeed(a, s)
  {
    s => TranslateSeed(a, s)
  }

  /** Part two on ranges: the lowest start after pushing the seed ranges
      through the seven stages is the lowest location of any seed in them. */
  function LowestLocation(a: Almanac, seedRanges: seq<Range>): (m: Option<nat>)
    ensures IsLowest(LocationOf(a), seedRanges, m)
  {
    var out := MapRangesAll(Stages(a), seedRanges);
    LowestLocationCorrect(a, seedRanges);
    LowestStart(out)
  }

  lemma LowestLocationCorrect(a: Almanac, seedRanges: seq<Range>)
    ensures IsLowest(LocationOf(a), seedRanges, LowestStart(MapRangesAll(Stages(a), seedRanges)))
  {
    var f := LocationOf(a);
    var out := MapRangesAll(Stages(a), seedRanges);
    var m := LowestStart(out);
    LowestStartIsLeast(out);
    if m.Some? {
      MapRangesAllSound(Stages(a), seedRanges, m.value);
      var s :| InAny(seedRanges, s) && TranslateAll(Stages(a), s) == m.value;
      assert f(s) == m.value;
      forall s | InAny(seedRanges, s) ensures m.value <= f(s) {
        MapRangesAllComplete(Stages(a), seedRanges, s);
      }
    } else {
      forall s | InAny(seedRanges, s) ensures false {
        MapRangesAllComplete(Stages(a), seedRanges, s);
      }
    }
  }

  // ---------------------------------------------------------------------
  // The brute-force minimum: every seed of every range in turn
  // ---------------------------------------------------------------------

  /** Keeps the smaller of the best location so far and a new one; a tie
      keeps the earlier. */
  function Better(best: Option<nat>, l: nat): (b: Option<nat>)
    ensures b.Some?
    ensures best.None? ==> b.value == l
    ensures best.Some? ==> b.value == if l < best.value then l else best.value
  {
    if best.None? || l < best.value then Some(l) else best
  }

  /** Visits the values lo, lo + 1, ..., hi - 1 in order. */
  function ScanRange(f: nat -> nat, lo: nat, hi: nat, best: Option<nat>): (m: Option<nat>)
    ensures m.None? <==> best.None? && hi <= lo
    ensures m.Some? && best.Some? ==> m.value <= best.value
    ensures m.Some? ==> best == Some(m.value) || exists s :: lo <= s < hi && f(s) == m.value
    ensures m.Some? ==> forall s :: lo <= s < hi ==> m.value <= f(s)
    decreases hi - lo
  {
    if hi <= lo then best
    else ScanRange(f, lo + 1, hi, Better(best, f(lo)))
  }

  /** Visits the ranges in order. */
  function ScanRanges(f: nat -> nat, rs: seq<Range>, best: Option<nat>): (m: Option<nat>)
    ensures m.None? <==> best.None? && forall k :: 0 <= k < |rs| ==> IsEmpty(rs[k])
    ensures m.Some? && best.Some? ==> m.value <= best.value
    ensures m.Some? ==> best == Some(m.value) || exists s :: InAny(rs, s) && f(s) == m.value
    ensures m.Some? ==> forall s :: InAny(rs, s) ==> m.value <= f(s)
  {
    if |rs| == 0 then best
    else
      var head := ScanRange(f, rs[0].start, rs[0].end, best);
      ScanRangesStep(rs);
      assert forall k :: 1 <= k < |rs| ==> rs[k] == rs[1..][k - 1];
      ScanRanges(f, rs[1..], head)
  }

  lemma ScanRangesStep(rs: seq<Range>)
    requires |rs| > 0
    ensures forall s :: InAny(rs, s) <==> Contains(rs[0], s) || InAny(rs[1..], s)
  {
    forall s ensures InAny(rs, s) <==> Contains(rs[0], s) || InAny(rs[1..], s) {
      assert rs == [rs[0]] + rs[1..];
      InAnyAppend([rs[0]], rs[1..], s);
      if InAny([rs[0]], s) {
        var k :| 0 <= k < 1 && Contains([rs[0]][k], s);
      }
      if Contains(rs[0], s) {
        assert Contains([rs[0]][0], s);
      }
    }
  }

  /** The commented-out loop of `main`: the lowest location over all seeds
      of all ranges, one seed at a time. */
  function BruteForceLowestLocation(a: Almanac, seedRanges: seq<Range>): (m: Option<nat>)
    ensures IsLowest(LocationOf(a), seedRanges, m)
  {
    NoValueIffAllEmpty(seedRanges);
    ScanRanges(LocationOf(a), seedRanges, None)
  }

  lemma NoValueIffAllEmpty(rs: seq<Range>)
    ensures (forall s :: !InAny(rs, s)) <==> forall k :: 0 <= k < |rs| ==> IsEmpty(rs[k])
  {
    if !forall k :: 0 <= k < |rs| ==> IsEmpty(rs[k]) {
      var k :| 0 <= k < |rs| && !IsEmpty(rs[k]);
      assert Contains(rs[k], rs[k].start);
      assert InAny(rs, rs[k].start);
    }
  }

  /** The range pipeline computes exactly what the brute-force loop does. */
  lemma RangesAgreeWithBruteForce(a: Almanac, seedRanges: seq<Range>)
    ensures LowestLocation(a, seedRanges) == BruteForceLowestLocation(a, seedRanges)
  {
    IsLowestUnique(LocationOf(a), seedRanges, LowestLocation(a, seedRanges), BruteForceLowestLocation(a, seedRanges));
  }

  /** Seed `s` lies in the `i`-th (start, length) pair of the seed list. */
  predicate InPair(seeds: seq<nat>, i: nat, s: nat) {
    2 * i + 1 < |seeds| && seeds[2 * i] <= s < seeds[2 * i] + seeds[2 * i + 1]
  }

  /** The pairwise ranges hold exactly the seeds of the pairs. */
  lemma SeedRangesCover(seeds: seq<nat>, s: nat)
    ensures InAny(SeedRanges(seeds), s) <==> exists i: nat :: InPair(seeds, i, s)
  {
    var rs := SeedRanges(seeds);
    if InAny(rs, s) {
      var k :| 0 <= k < |rs| && Contains(rs[k], s);
      assert InPair(seeds, k, s);
    }
    if i: nat :| InPair(seeds, i, s) {
      assert Contains(rs[i], s);
    }
  }

  /** Part two as the puzzle means it: the lowest location of any seed in
      the (start, length) pairs, None when every pair is empty. */
  function LowestPairedLocation(a: Almanac): (m: Option<nat>)
    ensures m.None? <==> forall i: nat, s: nat :: !InPair(a.seeds, i, s)
    ensures m.Some? ==> exists i: nat, s: nat :: InPair(a.seeds, i, s) && TranslateSeed(a, s) == m.value
    ensures forall i: nat, s: nat :: InPair(a.seeds, i, s) ==> m.Some? && m.value <= TranslateSeed(a, s)
  {
    LowestPairedCorrect(a);
    LowestLocation(a, SeedRanges(a.seeds))
  }

  lemma LowestPairedCorrect(a: Almanac)
    ensures var m := LowestLocation(a, SeedRanges(a.seeds));
      && (m.None? <==> forall i: nat, s: nat :: !InPair(a.seeds, i, s))
      && (m.Some? ==> exists i: nat, s: nat :: InPair(a.seeds, i, s) && TranslateSeed(a, s) == m.value)
      && (forall i: nat, s: nat :: InPair(a.seeds, i, s) ==> m.Some? && m.value <= TranslateSeed(a, s))
  {
    var rs := SeedRanges(a.seeds);
    var m := LowestLocation(a, rs);
    var f := LocationOf(a);
    forall i: nat, s: nat | InPair(a.seeds, i, s) ensures m.Some? && m.value <= TranslateSeed(a, s) {
      SeedRangesCover(a.seeds, s);
      assert InAny(rs, s);
      assert f(s) == TranslateSeed(a, s);
    }
    if m.Some? {
      var s :| InAny(rs, s) && f(s) == m.value;
      SeedRangesCover(a.seeds, s);
      var i: nat :| InPair(a.seeds, i, s);
      assert InPair(a.seeds, i, s) && TranslateSeed(a, s) == m.value;
    } else {
      forall i: nat, s: nat ensures !InPair(a.seeds, i, s) {
        SeedRangesCover(a.seeds, s);
      }
    }
  }
}
