/**
 * Day 5: the almanac. Seven map stages send a seed number through soil,
 * fertilizer, water, light, temperature and humidity to a location.
 * Each stage is a list of rules `dst src size`; a value covered by a
 * rule's source range moves by the rule's offset, any other value stays.
 */
module Day5 {
  import opened Common

  /** One line of a map section. A value v with src <= v < src + size is
      sent to dst + (v - src). */
  datatype Rule = Rule(dst: nat, src: nat, size: nat)

  /** One map section, rules in stored order (`AlmanacMaps`). */
  type Stage = seq<Rule>

  predicate Covers(r: Rule, v: nat) {
    r.src <= v < r.src + r.size
  }

  function Apply(r: Rule, v: nat): nat
    requires Covers(r, v)
  {
    r.dst + (v - r.src)
  }

  /** `i` is the first rule of `stage`, in stored order, that covers `v`. */
  predicate FirstCover(stage: Stage, v: nat, i: int) {
    && 0 <= i < |stage|
    && Covers(stage[i], v)
    && forall j :: 0 <= j < i ==> !Covers(stage[j], v)
  }

  predicate Uncovered(stage: Stage, v: nat) {
    forall i :: 0 <= i < |stage| ==> !Covers(stage[i], v)
  }

  /** The image of one value under one stage: the first covering rule in
      stored order decides, and an uncovered value maps to itself (so a
      stage without rules is the identity). */
  function Translate(stage: Stage, v: nat): (r: nat)
    ensures Uncovered(stage, v) ==> r == v
    ensures forall i :: FirstCover(stage, v, i) ==> r == Apply(stage[i], v)
  {
    if |stage| == 0 then v
    else if Covers(stage[0], v) then Apply(stage[0], v)
    else
      var r := Translate(stage[1..], v);
      assert forall i :: FirstCover(stage, v, i) ==> FirstCover(stage[1..], v, i - 1);
      r
  }

  /** Either some rule covers v, and then a first one does, or none does. */
  lemma {:induction false} FirstCoverExists(stage: Stage, v: nat)
    ensures Uncovered(stage, v) || exists i :: FirstCover(stage, v, i)
  {
    if |stage| > 0 && !Covers(stage[0], v) {
      FirstCoverExists(stage[1..], v);
      if !Uncovered(stage[1..], v) {
        var i :| FirstCover(stage[1..], v, i);
        assert FirstCover(stage, v, i + 1);
      }
    } else if |stage| > 0 {
      assert FirstCover(stage, v, 0);
    }
  }

  /** Source ranges of distinct rules do not intersect. */
  predicate Disjoint(stage: Stage) {
    forall i, j :: 0 <= i < j < |stage| ==>
      stage[i].src + stage[i].size <= stage[j].src || stage[j].src + stage[j].size <= stage[i].src
  }

  /** In a stage whose source ranges are disjoint, ANY rule covering v gives
      the image of v: stored order no longer matters. */
  lemma TranslateDisjoint(stage: Stage, i: nat, v: nat)
    requires Disjoint(stage)
    requires i < |stage| && Covers(stage[i], v)
    ensures Translate(stage, v) == Apply(stage[i], v)
  {
    FirstCoverExists(stage, v);
    var k :| FirstCover(stage, v, k);
    assert k == i;
  }

  /** Reordering the rules of a stage with disjoint source ranges does not
      change its translation. */
  lemma TranslatePermutation(s1: Stage, s2: Stage, v: nat)
    requires Disjoint(s1)
    requires multiset(s1) == multiset(s2)
    ensures Translate(s2, v) == Translate(s1, v)
  {
    FirstCoverExists(s2, v);
    if !Uncovered(s2, v) {
      var k :| FirstCover(s2, v, k);
      assert s2[k] in multiset(s1);
      var i :| 0 <= i < |s1| && s1[i] == s2[k];
      TranslateDisjoint(s1, i, v);
    } else {
      forall i | 0 <= i < |s1| ensures !Covers(s1[i], v) {
        assert s1[i] in multiset(s2);
        var j :| 0 <= j < |s2| && s2[j] == s1[i];
      }
    }
  }

  // ---------------------------------------------------------------------
  // Sorting the rules of a stage at construction
  // ---------------------------------------------------------------------

  /** Each rule's `dst` is at most the next one's. */
  predicate SortedByDst(stage: Stage) {
    forall i :: 0 < i < |stage| ==> stage[i - 1].dst <= stage[i].dst
  }

  function InsertByDst(r: Rule, sorted: Stage): (out: Stage)
    requires SortedByDst(sorted)
    ensures |out| > 0 && (out[0] == r || (|sorted| > 0 && out[0] == sorted[0]))
    ensures SortedByDst(out)
    ensures multiset(out) == multiset(sorted) + multiset{r}
  {
    if |sorted| == 0 || r.dst <= sorted[0].dst then
      [r] + sorted
    else
      var rest := InsertByDst(r, sorted[1..]);
      assert sorted == [sorted[0]] + sorted[1..];
      [sorted[0]] + rest
  }

  /** The rule order a stage is stored in: ascending by the first number of
      each line, `dst` (a stable sort). */
  function SortByDst(rules: Stage): (sorted: Stage)
    ensures SortedByDst(sorted)
    ensures multiset(sorted) == multiset(rules)
  {
    if |rules| == 0 then []
    else
      assert rules == [rules[0]] + rules[1..];
      InsertByDst(rules[0], SortByDst(rules[1..]))
  }

  /** One rule line: three numerals separated by blanks, read in textual
      order as (dst, src, size). */
  function MapLine(line: string): (r: Option<Rule>)
    ensures r.Some? <==> (|Words(line)| == 3 && forall k :: 0 <= k < 3 ==> IsNumeral(Words(line)[k]))
  {
    var ws := Words(line);
    if |ws| == 3 && IsNumeral(ws[0]) && IsNumeral(ws[1]) && IsNumeral(ws[2]) then
      Some(Rule(DecimalValue(ws[0]), DecimalValue(ws[1]), DecimalValue(ws[2])))
    else
      None
  }

  /** A printed rule line is read back as the same rule, in textual order. */
  lemma MapLineRoundTrip(a: nat, b: nat, c: nat)
    ensures MapLine(Decimal(a) + " " + Decimal(b) + " " + Decimal(c)) == Some(Rule(a, b, c))
  {
    var line := Decimal(a) + " " + Decimal(b) + " " + Decimal(c);
    WordsOfThree(Decimal(a), Decimal(b), Decimal(c));
    DecimalRoundTrip(a);
    DecimalRoundTrip(b);
    DecimalRoundTrip(c);
  }

  lemma WordsOfThree(x: string, y: string, z: string)
    requires IsNumeral(x) && IsNumeral(y) && IsNumeral(z)
    ensures Words(x + " " + y + " " + z) == [x, y, z]
  {
    var ws := [x, y, z];
    assert IsWord(x) && IsWord(y) && IsWord(z);
    assert Unwords(ws) == x + " " + Unwords([y, z]);
    assert Unwords([y, z]) == y + " " + z;
    assert x + " " + (y + " " + z) == x + " " + y + " " + z;
    WordsUnwords(ws);
  }

  function MapLines(lines: seq<string>): (r: Option<Stage>)
    ensures r.Some? ==> |r.value| == |lines|
    ensures r.Some? ==> forall k :: 0 <= k < |lines| ==> MapLine(lines[k]) == Some(r.value[k])
    ensures r.None? ==> exists k :: 0 <= k < |lines| && MapLine(lines[k]).None?
  {
    if |lines| == 0 then Some([])
    else match (MapLine(lines[0]), MapLines(lines[1..]))
      case (Some(rule), Some(rest)) =>
        assert forall k :: 1 <= k < |lines| ==> lines[k] == lines[1..][k - 1];
        Some([rule] + rest)
      case (None, _) => None
      case (_, None) =>
        var k :| 0 <= k < |lines[1..]| && MapLine(lines[1..][k]).None?;
        assert lines[k + 1] == lines[1..][k];
        None
  }

  /** A map section: at least one rule line, every line well formed; the
      stage holds exactly the parsed rules, sorted by `dst`. */
  function ParseStage(lines: seq<string>): (r: Option<Stage>)
    ensures r.Some? <==> |lines| > 0 && MapLines(lines).Some?
    ensures r.Some? ==> SortedByDst(r.value) && multiset(r.value) == multiset(MapLines(lines).value)
  {
    if |lines| == 0 then None
    else match MapLines(lines)
      case None => None
      case Some(rules) => Some(SortByDst(rules))
  }

  /** Sorting at construction does not change a stage's translation as long
      as its source ranges are disjoint. */
  lemma SortedStageTranslates(rules: Stage, v: nat)
    requires Disjoint(rules)
    ensures Translate(SortByDst(rules), v) == Translate(rules, v)
  {
    TranslatePermutation(rules, SortByDst(rules), v);
  }

  // ---------------------------------------------------------------------
  // The almanac
  // ---------------------------------------------------------------------

  datatype Almanac = Almanac(
    seeds: seq<nat>,
    seedToSoil: Stage,
    soilToFertilizer: Stage,
    fertilizerToWater: Stage,
    waterToLight: Stage,
    lightToTemperature: Stage,
    temperatureToHumidity: Stage,
    humidityToLocation: Stage)

  /** The seven stages in chain order. */
  function Stages(a: Almanac): seq<Stage> {
    [a.seedToSoil, a.soilToFertilizer, a.fertilizerToWater, a.waterToLight,
     a.lightToTemperature, a.temperatureToHumidity, a.humidityToLocation]
  }

  /** Pushes a value through a chain of stages, first stage first. A value
      that no stage maps passes through unchanged. */
  function TranslateAll(stages: seq<Stage>, v: nat): (r: nat)
    ensures (forall k :: 0 <= k < |stages| ==> Uncovered(stages[k], v)) ==> r == v
  {
    if |stages| == 0 then v
    else
      var r := TranslateAll(stages[1..], Translate(stages[0], v));
      assert (forall k :: 0 <= k < |stages| ==> Uncovered(stages[k], v)) ==>
        forall k :: 0 <= k < |stages[1..]| ==> Uncovered(stages[1..][k], v) by {
        if forall k :: 0 <= k < |stages| ==> Uncovered(stages[k], v) {
          forall k | 0 <= k < |stages[1..]| ensures Uncovered(stages[1..][k], v) {
            assert stages[1..][k] == stages[k + 1];
          }
        }
      }
      r
  }

  lemma {:induction false} TranslateAllAppend(s1: seq<Stage>, s2: seq<Stage>, v: nat)
    ensures TranslateAll(s1 + s2, v) == TranslateAll(s2, TranslateAll(s1, v))
  {
    if |s1| > 0 {
      assert (s1 + s2)[1..] == s1[1..] + s2;
      TranslateAllAppend(s1[1..], s2, Translate(s1[0], v));
    } else {
      assert s1 + s2 == s2;
    }
  }

  lemma TranslateAllSeven(a: Almanac, seed: nat)
    ensures TranslateAll(Stages(a), seed) ==
      Translate(a.humidityToLocation,
        Translate(a.temperatureToHumidity,
          Translate(a.lightToTemperature,
            Translate(a.waterToLight,
              Translate(a.fertilizerToWater,
                Translate(a.soilToFertilizer,
                  Translate(a.seedToSoil, seed)))))))
  {
    var st := Stages(a);
    var v1 := Translate(a.seedToSoil, seed);
    var v2 := Translate(a.soilToFertilizer, v1);
    var v3 := Translate(a.fertilizerToWater, v2);
    var v4 := Translate(a.waterToLight, v3);
    var v5 := Translate(a.lightToTemperature, v4);
    var v6 := Translate(a.temperatureToHumidity, v5);
    var v7 := Translate(a.humidityToLocation, v6);
    assert TranslateAll(st, seed) == TranslateAll(st[1..], v1);
    assert TranslateAll(st[1..], v1) == TranslateAll(st[2..], v2) by { assert st[1..][1..] == st[2..]; }
    assert TranslateAll(st[2..], v2) == TranslateAll(st[3..], v3) by { assert st[2..][1..] == st[3..]; }
    assert TranslateAll(st[3..], v3) == TranslateAll(st[4..], v4) by { assert st[3..][1..] == st[4..]; }
    assert TranslateAll(st[4..], v4) == TranslateAll(st[5..], v5) by { assert st[4..][1..] == st[5..]; }
    assert TranslateAll(st[5..], v5) == TranslateAll(st[6..], v6) by { assert st[5..][1..] == st[6..]; }
    assert TranslateAll(st[6..], v6) == TranslateAll(st[7..], v7) by { assert st[6..][1..] == st[7..]; }
    assert st[7..] == [];
  }

  /** The location of a seed: the seven stage translations composed
      seed -> soil -> fertilizer -> water -> light -> temperature ->
      humidity -> location. */
  function TranslateSeed(a: Almanac, seed: nat): (location: nat)
    ensures location == TranslateAll(Stages(a), seed)
  {
    TranslateAllSeven(a, seed);
    Translate(a.humidityToLocation,
      Translate(a.temperatureToHumidity,
        Translate(a.lightToTemperature,
          Translate(a.waterToLight,
            Translate(a.fertilizerToWater,
              Translate(a.soilToFertilizer,
                Translate(a.seedToSoil, seed)))))))
  }

  /** The step-by-step variant whose intermediate values were traced; its
      value is the location of the seed. */
  function VerboseTranslateSeed(a: Almanac, seed: nat): (location: nat)
    ensures location == TranslateSeed(a, seed)
  {
    var soil := Translate(a.seedToSoil, seed);
    var fertilizer := Translate(a.soilToFertilizer, soil);
    var water := Translate(a.fertilizerToWater, fertilizer);
    var light := Translate(a.waterToLight, water);
    var temperature := Translate(a.lightToTemperature, light);
    var humidity := Translate(a.temperatureToHumidity, temperature);
    Translate(a.humidityToLocation, humidity)
  }

  /** The location of every listed seed, in seed order. */
  function TranslateSeeds(a: Almanac): (locations: seq<nat>)
    ensures |locations| == |a.seeds|
    ensures forall i :: 0 <= i < |a.seeds| ==> locations[i] == TranslateAll(Stages(a), a.seeds[i])
  {
    seq(|a.seeds|, i requires 0 <= i < |a.seeds| => TranslateSeed(a, a.seeds[i]))
  }

  /** The least element of a non-empty list. */
  function Minimum(xs: seq<nat>): (m: nat)
    requires |xs| > 0
    ensures m in xs
    ensures forall i :: 0 <= i < |xs| ==> m <= xs[i]
  {
    if |xs| == 1 then xs[0]
    else
      var rest := Minimum(xs[1..]);
      assert forall i :: 1 <= i < |xs| ==> xs[i] == xs[1..][i - 1];
      if xs[0] <= rest then xs[0] else rest
  }

  /** The part-one answer: the lowest location of any listed seed. */
  function LowestSeedLocation(a: Almanac): (m: nat)
    requires |a.seeds| > 0
    ensures exists i :: 0 <= i < |a.seeds| && m == TranslateSeed(a, a.seeds[i])
    ensures forall i :: 0 <= i < |a.seeds| ==> m <= TranslateSeed(a, a.seeds[i])
  {
    var locations := TranslateSeeds(a);
    var m := Minimum(locations);
    var i :| 0 <= i < |locations| && locations[i] == m;
    m
  }

  // ---------------------------------------------------------------------
  // Seed ranges
  // ---------------------------------------------------------------------

  /** The half-open range [start, end). */
  datatype Range = Range(start: nat, end: nat)

  predicate Contains(r: Range, v: nat) {
    r.start <= v < r.end
  }

  /** The seed list read as ranges the way the code does it: every pair of
      NEIGHBOURING numbers (overlapping windows) gives
      [seeds[i], seeds[i] + seeds[i + 1]). */
  function GetSeedRanges(seeds: seq<nat>): (ranges: seq<Range>)
    ensures |seeds| < 2 ==> ranges == []
    ensures |seeds| >= 2 ==> |ranges| == |seeds| - 1
    ensures forall i :: 0 <= i < |ranges| ==> ranges[i] == Range(seeds[i], seeds[i] + seeds[i + 1])
  {
    if |seeds| < 2 then []
    else seq(|seeds| - 1, i requires 0 <= i < |seeds| - 1 => Range(seeds[i], seeds[i] + seeds[i + 1]))
  }

  /** The seeds of the worked example: ranges (79, 14) and (55, 13). The
      windows also produce [14, 69), read from the length 14 and the start
      55, which is no seed range at all. */
  lemma GetSeedRangesOverlaps()
    ensures GetSeedRanges([79, 14, 55, 13]) == [Range(79, 93), Range(14, 69), Range(55, 68)]
    ensures Contains(GetSeedRanges([79, 14, 55, 13])[1], 20)
  {
  }

  /** The seed list read as (start, length) pairs: the i-th range is
      [seeds[2i], seeds[2i] + seeds[2i + 1]); a trailing odd number is
      ignored. */
  function SeedRanges(seeds: seq<nat>): (ranges: seq<Range>)
    ensures |ranges| == |seeds| / 2
    ensures forall i :: 0 <= i < |ranges| ==> ranges[i] == Range(seeds[2 * i], seeds[2 * i] + seeds[2 * i + 1])
  {
    seq(|seeds| / 2, i requires 0 <= i < |seeds| / 2 => Range(seeds[2 * i], seeds[2 * i] + seeds[2 * i + 1]))
  }

  /** Pairwise reading of the example gives exactly its two ranges. */
  lemma SeedRangesExample()
    ensures SeedRanges([79, 14, 55, 13]) == [Range(79, 93), Range(55, 68)]
  {
  }
}
