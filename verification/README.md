# Advent of Code 2023, days 1 to 8, in Dafny

This project models the puzzle-solving cores of a Rust solution to the first
eight days of Advent of Code 2023 and proves properties about them. Each day
is one module in one file. The modules share these supporting files:

- `common.dfy` holds decimal numerals, white-space splitting, sums and products.
- `nom.dfy` holds the small parser combinators the days use. Each one returns
  `Ok(value, rest)` or `Fail`, as the Rust parser library does.
- `sorting.dfy` holds sorting by a comparator. It also proves that a strict
  order has only one ascending arrangement of a multiset.

What each day covers:

- **Day 1 (Trebuchet).** Find every digit or spelled-out digit in a line. Take
  the first and the last one, and sum the two-digit values over all lines.
- **Day 2 (Cube Conundrum).** Parse game lines with a nom-style grammar. Fold
  each draw into red, green and blue counts. Decide whether a game fits a bag of
  12 red, 13 green and 14 blue cubes. Compute a game's power.
- **Day 3 (Gear Ratios).** Scan a grid for symbols and for runs of digits. Keep
  the numbers that have a symbol next to them. A `*` with exactly two such
  numbers is a gear; sum the gears' ratios.
- **Day 4 (Scratchcards).** Build a card: its matches, and its score
  `1 << (matches - 1)`. Compute a card's recursive "transitive value", both
  directly and with a memoising method. Parse a card line.
- **Day 5 (Seeds).** Translate values through the seven rule stages. Parse a
  rule line, and sort a stage by destination. Find the lowest location. Read the
  seed list as ranges, two ways: as the code does it (overlapping windows) and
  as the puzzle means it (pairs). Day 5 also has an interval-level mapping of
  ranges, which is proved to agree with a brute-force scan.
- **Day 6 (Boat Races).** Zip the two input rows. Count the winning hold times,
  with a closed form for that count. Take the product over races, and solve the
  kerned single race.
- **Day 7 (Camel Cards).** Classify a hand with or without a wildcard. Order
  hands by type and then by the first differing card. Rank-weighted winnings
  depend only on the multiset of hands.
- **Day 8 (Haunted Wasteland).** Parse the network. Walk from `AAA` to `ZZZ`
  following the instructions cyclically. The walk looks nodes up in a sorted
  table by binary search.

Fixed-width integers are modelled as unbounded naturals. A Rust panic (an
`unwrap` of a missing value, or `panic!()`) becomes a precondition, with
two exceptions. In the day 8 walk a panic becomes an `Outcome` value. In
`Day7.ParseHand` a bid that is not a number gives `None`, where the code's
`from_str_radix(..).unwrap()` panics (src/day7.rs:146).

## Model

| member | source | states |
|---|---|---|
| Common.DecimalRoundTrip | src/day6.rs:34-35 | reading back the decimal text that `to_string` prints gives the same number |
| Common.Decimal | src/day6.rs:34 | a printed number is a non-empty digit string with no leading zero |
| Common.ParseNat | src/day3.rs:57 | a digit string is accepted exactly when it is non-empty and all digits |
| Common.ParseUnsigned | src/day6.rs:9 | the unsigned parser accepts exactly a non-empty digit string, optionally after one `+` |
| Common.ParseUnsignedDecimal | src/day7.rs:146 | every printed bid parses back to itself |
| Common.Words | src/day6.rs:9 | `split_whitespace` yields only non-empty pieces without white space |
| Common.WordsAppend | src/day6.rs:9 | splitting at a white-space character splits the two sides independently |
| Common.WordsUnwords | src/day7.rs:145 | words joined by single spaces split back into the same words |
| Common.SumAppend | src/day1.rs:14 | the sum over two concatenated lists is the sum of the two sums |
| Nom.Digit1Decimal | src/day2.rs:64-66 | `digit1` followed by a number parse reads a printed number and stops at the first non-digit |
| Nom.Space1Spaces | src/day4.rs:35 | `space1` consumes every blank of a non-empty run and nothing after it |
| Nom.SeparatorOne | src/day2.rs:75 | the separator `char(c)` then `space1` consumes exactly `c` and one blank |
| Nom.Collect | src/day2.rs:17-22 | collecting results succeeds exactly when every line parsed, and keeps their values in order |
| Sorting.SortBy | src/day7.rs:154 | sorting by a strict order that relates every pair gives an ascending permutation of the input |
| Sorting.AscendingUnique | src/day7.rs:154 | two ascending permutations of one multiset under a strict order are equal, so every sorting algorithm gives the same result |
| Day1.MatchIndices | src/day1.rs:40 | `match_indices` reports only real occurrences, in order, and never overlapping ones |
| Day1.MatchIndicesComplete | src/day1.rs:40 | for a pattern with no border (no proper prefix equal to a suffix), every occurrence is reported |
| Day1.UniqueEndNoBorder | src/day1.rs:18-37 | a pattern whose first or last letter occurs only once has no border |
| Day1.FindNumberishesSpec | src/day1.rs:17-43 | an (index, value) pair is found exactly when some table pattern with that value occurs at that index |
| Day1.FindNumberishes | src/day1.rs:17-43 | every found (index, value) pair is spelled at that index by a table pattern with that value |
| Day1.FindNumberishesBytes | src/day1.rs:38-42 | the code's byte-offset positions: the same digits, one for one, each at an offset no smaller than its character index, and in the same relative order |
| Day1.ByteOffsetsKeepDigits | src/day1.rs:45-61 | the entry with the smallest byte offset carries the first digit and the one with the largest the last, so byte offsets give the same line value |
| Day1.EuroOneOffsets | src/day1.rs:40 | on the line "€1" the digit 1 is found at character 1, which is byte offset 3 |
| Day1.PatternsExclusive | src/day1.rs:18-37 | two table patterns never start at the same index |
| Day1.NumberishesValid | src/day1.rs:18-37 | the program's eighteen-entry table meets those conditions, with values 1 to 9 |
| Day1.MinEntry | src/day1.rs:47-49 | the first entry by index is one of the found entries, and no entry has a smaller index |
| Day1.MaxEntry | src/day1.rs:56-58 | the last entry by index is one of the found entries, and no entry has a larger index |
| Day1.FirstDigit | src/day1.rs:45-52 | the first digit is spelled at some index before which no table pattern occurs |
| Day1.LastDigit | src/day1.rs:54-61 | the last digit is spelled at some index after which no table pattern occurs |
| Day1.FirstDigitSpec | src/day1.rs:45-52 | the first digit is the value of the pattern that occurs at the smallest index |
| Day1.LastDigitSpec | src/day1.rs:54-61 | the last digit is the value of the pattern that occurs at the largest index |
| Day1.FoundDigitRange | src/day1.rs:17-43 | every value found is between 1 and 9 |
| Day1.BothDigits | src/day1.rs:63-65 | a line's value is between 11 and 99, and its units digit is never 0 |
| Day1.AddAllLines | src/day1.rs:13-15 | the total is 0 exactly when there are no lines |
| Day1.AddAllLinesAppend | src/day1.rs:13-15 | the total of two groups of lines is the sum of the two totals |
| Day1.AddAllLinesBounds | src/day1.rs:13-15 | the total lies between 11 and 99 times the number of lines |
| Day1.Regression73Eight7 | src/day1.rs:174-184 | the line "73eight7" is worth 77 |
| Day1.OverlappingNames | src/day1.rs:186-201 | in "eightwothree" the overlapping names are all found: eight at 0, two at 4 and three at 7; the line is worth 83 |
| Day2.ParseItem | src/day2.rs:87-91 | one count-and-colour item consumes input |
| Day2.ParseItems | src/day2.rs:85-92 | `separated_list1` of items yields at least one item |
| Day2.Tally | src/day2.rs:94-115 | a colour with a non-zero count in the folded draw comes from an item of that colour |
| Day2.TallyIsLastCount | src/day2.rs:94-115 | the fold gives each colour the count of the last item of that colour, or 0 when the colour is absent |
| Day2.ParseDraw | src/day2.rs:84-117 | a draw parses exactly when its item list does, and its value is the fold of those items |
| Day2.ParseDraws | src/day2.rs:75 | a game's draw list holds at least one draw |
| Day2.ParseGame | src/day2.rs:68-82 | a parsed game has at least one draw |
| Day2.ParseGameDraws | src/day2.rs:73-81 | the game keeps the id parsed before the colon |
| Day2.ParseGames | src/day2.rs:17-22 | the input parses exactly when every line parses as a game, and then gives one game per line, in order |
| Day2.MaxDraw | src/day2.rs:36-41 | the per-colour maximum bounds every draw, and each colour's maximum is reached by some draw |
| Day2.Possible | src/day2.rs:25-29 | in a possible game no draw holds more cubes in total than the bag |
| Day2.PossibleIffMaxFits | src/day2.rs:25-29 | a game is possible for a bag exactly when its per-colour maxima fit in the bag |
| Day2.PossibleIdSum | src/day2.rs:28-31 | the id of every game possible for the bag is part of the sum |
| Day2.Power | src/day2.rs:36-44 | a game's power is at least the volume of each of its draws |
| Day2.PowerSum | src/day2.rs:36-44 | every game's power is part of the sum of powers |
| Day2.PowerIsLeast | src/day2.rs:36-44 | a game's power is at most the volume of any bag that makes the game possible |
| Day2.VolumeMonotone | src/day2.rs:43 | a draw that fits in a bag has at most the bag's volume |
| Day2.PossibleIdSumAppend | src/day2.rs:28-31 | the sum of possible ids over two lists of games is the sum of the two sums |
| Day2.ItemRoundTrip | src/day2.rs:87-91 | a printed item parses back to itself and leaves the tail |
| Day2.ItemsRoundTrip | src/day2.rs:85-92 | printed items joined by ", " parse back to the same list |
| Day2.DrawRoundTrip | src/day2.rs:84-117 | a printed draw parses back to the fold of its items |
| Day2.DrawsRoundTrip | src/day2.rs:75 | printed draws joined by "; " parse back to their folds |
| Day2.GameRoundTrip | src/day2.rs:68-82 | a printed game line parses back to its id and draws |
| Day2.DrawItems | src/day2.rs:94-115 | every draw is the fold of some list of items |
| Day2.ParseShowGame | src/day2.rs:68-82 | every game with at least one draw has a text that parses to exactly that game |
| Day2.DrawExample | src/day2.rs:123-135 | "3 blue, 4 red" parses to red 4, green 0, blue 3, with nothing left over |
| Day2.GameExample | src/day2.rs:137-156 | the game 17 line parses to its three draws, with nothing left over |
| Day2.GameExampleScores | src/day2.rs:25-44 | the game 17 example fits the 12/13/14 bag, so it adds its id 17, and its power is 48 |
| Day3.TrimStart | src/day3.rs:46 | leading trimming removes exactly a run of white space from the front |
| Day3.TrimEnd | src/day3.rs:46 | trailing trimming removes exactly a run of white space from the back |
| Day3.TrimIdempotent | src/day3.rs:46 | trimming twice is the same as trimming once |
| Day3.SymbolsFrom | src/day3.rs:46-50 | a line yields exactly its non-dot, non-digit characters, with their columns, from left to right |
| Day3.SymbolsOfLines | src/day3.rs:45-51 | a point is a symbol exactly when it is a symbol of its trimmed line; the points come in row-major order |
| Day3.RunEnd | src/day3.rs:56 | a run of digits ends at the end of the line or at a non-digit |
| Day3.NumbersFrom | src/day3.rs:56-58 | in character columns, the corrected reading: each number box spans a maximal run of digits and carries its decimal value; boxes are disjoint and ordered |
| Day3.NumbersOfLines | src/day3.rs:55-59 | in character columns, the corrected reading: every box lies on its own row and spans a maximal run of digits of the trimmed line |
| Day3.DigitsCovered | src/day3.rs:55-59 | every digit of every trimmed line lies inside some box of its row |
| Day3.PartsAndSymbols | src/day3.rs:43-62 | a point is listed as a symbol exactly when it is a symbol of its trimmed line, and every box is a maximal digit run of its row, in character columns |
| Common.Utf8Length | src/day3.rs:56-57 | a character takes 1 to 4 bytes in UTF-8, and exactly 1 when it is ASCII |
| Common.ByteOffset | src/day3.rs:57 | the byte offset of character i of a line is never less than i |
| Common.ByteOffsetOrder | src/day1.rs:40 | byte offsets of characters in one line are in the same order as the character indices, and equal exactly when the indices are |
| Day3.ByteBox | src/day3.rs:56-57 | the box the code builds from a match keeps the run's value, row and width, and sits right of the character columns by the extra bytes before the run |
| Day3.ByteNumbersOfLines | src/day3.rs:55-59 | the boxes as the code computes them are the character-column boxes, one for one, with the same values and rows, each moved right or kept in place |
| Day3.ByteColumnsPartsAndSymbols | src/day3.rs:43-62 | the code's reading has the same symbols as the character-column reading, and its boxes are those boxes moved |
| Day3.AsciiColumnsAgree | src/day3.rs:43-62 | on ASCII lines the code's reading and the character-column reading are identical |
| Day3.TouchingDigitIsPart | src/day3.rs:45-59 | with character columns, a digit in any of the eight cells around a symbol lies in a box that counts as a part number |
| Day3.MixedColumnsExample | src/day3.rs:45-59 | on the line "€1" the digit touches the symbol, yet the code's box for it starts at byte column 3 and its part sum is 0; with character columns the part sum is 1 |
| Day3.KeepMembers | src/day3.rs:65-68 | filtering keeps exactly the elements that satisfy the predicate |
| Day3.KeepAppend | src/day3.rs:65-68 | filtering distributes over concatenation |
| Day3.SymbolNeighbours | src/day3.rs:64-69 | every symbol returned is one of the symbols and is adjacent to the box |
| Day3.Adjacent | src/day3.rs:64-76 | for a one-row box, the widened-box test holds exactly when the symbol is on or next to (diagonals included) one of the box's digit cells |
| Day3.NumberNeighbours | src/day3.rs:71-76 | every box returned is one of the boxes and is adjacent to the symbol |
| Day3.NeighboursSymmetric | src/day3.rs:64-76 | a symbol neighbours a number exactly when that number neighbours that symbol; both use the same adjacency box |
| Day3.PartNumbersMembers | src/day3.rs:12 | a number is a part number exactly when some symbol is adjacent to it |
| Day3.PartNumbers | src/day3.rs:12 | every kept box is one of the boxes and has at least one symbol neighbour |
| Day3.PartSum | src/day3.rs:12-13 | every part number's value is part of the sum |
| Day3.Values | src/day3.rs:13 | the values list the boxes' numbers in order |
| Day3.GearsMembers | src/day3.rs:16-18 | a symbol is a gear exactly when it is a `*` with exactly two kept numbers adjacent to it |
| Day3.GearRatio | src/day3.rs:16-23 | a gear's neighbours are two kept numbers a and b, at two positions of the kept list, both adjacent to it; no other kept number is adjacent; its ratio is a·b |
| Day3.Ratios | src/day3.rs:20-21 | the ratio list has one ratio per gear, in order |
| Day3.RatioSum | src/day3.rs:16-23 | every gear's ratio is part of the sum |
| Day3.ExampleRegressions | src/day3.rs:111-122 | in the ten-row example, 467 neighbours only the `*` at (3,1), and 755 only the `*` at (5,8) |
| Day3.ExampleKept | src/day3.rs:123-135 | the example keeps every number except 114 and 58 |
| Day3.ExampleGears | src/day3.rs:142-158 | the example's gears are the `*`s at (3,1) and (5,8), with ratios 467·35 and 755·598 |
| Day3.ExampleSums | src/day3.rs:137-162 | the example's part sum is 4361 and its gear-ratio sum is 467835 |
| Day4.CountMatches | src/day4.rs:20 | the number of matches never exceeds the numbers held |
| Day4.CountMatchesAppend | src/day4.rs:20 | matches over two lists of held numbers add up |
| Day4.NoMatches | src/day4.rs:20 | there are no matches exactly when no held number is a winning number |
| Day4.AllMatch | src/day4.rs:20 | every held number matches exactly when each of them is a winning number |
| Day4.MatchesDependOnWinningSet | src/day4.rs:20 | the matches depend only on the set of winning numbers, not on their order or repeats |
| Day4.ScoreDoubles | src/day4.rs:26 | the score is 0 with no matches, 1 with one match, and doubles with each further match |
| Day4.Score | src/day4.rs:26 | the score is positive exactly when there is a match, and twice the score is 2 to the power of the matches |
| Day4.ScoreSum | src/day4.rs:84 | part one's total is at least every card's score, and 0 exactly when no card scores |
| Day4.ScoreSumAppend | src/day4.rs:84 | the total over two lists of cards is the sum of their totals |
| Day4.ScoreSumOfMatches | src/day4.rs:84 | for cards scored as `Card::new` scores them, the total is the sum of the scores of their match counts |
| Day4.NewCard | src/day4.rs:19-28 | a new card keeps its id and lists, and its score is 0 or 2 to the power (matches - 1) |
| Day4.TransitiveValue | src/day4.rs:73-77 | a card is worth at least 1 plus its matches, and exactly 1 when it has no matches |
| Day4.NoMatchesWorthOne | src/day4.rs:73-77 | cards without matches are ordered whatever their ids, and a range of them is worth one copy each |
| Day4.ValueOfRange | src/day4.rs:74-76 | the copies won over a range of cards are at least the range's length |
| Day4.ValueOfRangeSplit | src/day4.rs:74-76 | the value of a range of cards is the sum of the values of its two halves |
| Day4.MemoValues | src/day4.rs:87-90 | the memo table computed from the last card back holds every card's transitive value, and the total is their sum |
| Day4.TotalCards | src/day4.rs:86-90 | part two's total is at least the number of cards, and equals it exactly when no card has a match; `Day4.MemoValues` computes the same total |
| Day4.RangeExceedsLength | src/day4.rs:73-77 | a range holding a card with matches is worth more than one copy per card |
| Day4.SumKnown | src/day4.rs:74-76 | summing memoised values over a range gives that range's value |
| Day4.ParseNumbers | src/day4.rs:34-36 | `separated_list1(space1, number)` yields at least one number and consumes input |
| Day4.NumbersRoundTrip | src/day4.rs:34-36 | numbers printed with any positive gaps parse back to the same list |
| Day4.ParseCard | src/day4.rs:39-55 | an accepted line starts with "Card", consumes input, and has at least one winning and one held number |
| Day4.ParseCardLists | src/day4.rs:46-50 | the card keeps the id read before the colon, consumes input, and both lists are non-empty |
| Day4.ParseCards | src/day4.rs:81-82 | the input parses exactly when every line parses as a card, and then gives one card per line, in order |
| Day4.CardRoundTrip | src/day4.rs:39-55 | a printed card line, with any positive spacing, parses back to `Card::new` of its id and lists |
| Day4.CardListsRoundTrip | src/day4.rs:46-50 | the two lists and the bar between them parse back to the card's lists |
| Day4.ParseRenderCard | src/day4.rs:58-69 | a whole printed line parses completely to its card |
| Day4.FirstCardExample | src/day4.rs:99-111 | card 1 of the example has 4 matches and scores 8 |
| Day4.SixCardsExample | src/day4.rs:113-159 | the six example cards, given by their match counts, score 13 in total and end with 30 cards |
| Day5.Translate | src/day5.rs:21-29 | a value no rule covers stays the same; otherwise the first covering rule shifts it to `dst + (v - src)` |
| Day5.FirstCoverExists | src/day5.rs:22-28 | every value is either covered by no rule or has a first covering rule |
| Day5.TranslateDisjoint | src/day5.rs:21-29 | when the source ranges are disjoint, any covering rule decides the translation |
| Day5.TranslatePermutation | src/day5.rs:21-29 | with disjoint source ranges, reordering the rules does not change the translation |
| Day5.SortByDst | src/day5.rs:114 | sorting by destination gives a permutation of the rules, ordered by `dst` |
| Day5.MapLine | src/day5.rs:99-108 | a rule line is accepted exactly when it has three numeric fields, read as (dst, src, size) |
| Day5.MapLineRoundTrip | src/day5.rs:99-108 | a printed rule line reads back as the same rule |
| Day5.MapLines | src/day5.rs:112 | the rule lines parse exactly when every line parses, one rule per line in order |
| Day5.ParseStage | src/day5.rs:110-117 | a stage needs at least one rule line and holds exactly its rules, sorted by destination |
| Day5.SortedStageTranslates | src/day5.rs:110-117 | sorting a stage with disjoint source ranges does not change how it translates |
| Day5.TranslateAllAppend | src/day5.rs:63-73 | translating through two lists of stages is translating through the first, then the second |
| Day5.TranslateAll | src/day5.rs:63-73 | a value that no stage covers comes out unchanged |
| Day5.TranslateAllSeven | src/day5.rs:63-73 | a seed's location is the composition of the seven stage translations, from soil to location |
| Day5.TranslateSeed | src/day5.rs:63-73 | a seed's location is its translation through the seven stages in order |
| Day5.VerboseTranslateSeed | src/day5.rs:45-61 | the verbose translation gives the same location as the plain one |
| Day5.TranslateSeeds | src/day5.rs:75-79 | one location per seed, in seed order |
| Day5.Minimum | src/day5.rs:233 | the minimum is one of the values and no value is smaller |
| Day5.LowestSeedLocation | src/day5.rs:233 | part one's answer is the location of some seed, and no seed has a lower location |
| Day5.GetSeedRanges | src/day5.rs:81-85 | the windows pair every seed with the next one, so a list of n seeds gives n - 1 ranges |
| Day5.GetSeedRangesOverlaps | src/day5.rs:81-85 | on the seeds 79 14 55 13, the windows give the extra range [14, 69), which contains seed 20 |
| Day5.SeedRanges | src/day5.rs:81-85 | reading the seeds as (start, length) pairs gives one range per pair |
| Day5.SeedRangesExample | src/day5.rs:81-85 | on the seeds 79 14 55 13, the pairs give [79, 93) and [55, 68) |
| Day5Ranges.SplitRangeLength | src/day5.rs:21-29 | splitting an interval at a stage's rule boundaries loses no values |
| Day5Ranges.SplitRangeSound | src/day5.rs:21-29 | each piece lies in the interval, and every value in a piece translates by that piece's shift |
| Day5Ranges.SplitRangeComplete | src/day5.rs:21-29 | every value of the interval lies in some piece |
| Day5Ranges.MapRangesComplete | src/day5.rs:21-29 | the translation of any value in the input ranges lies in the mapped ranges |
| Day5Ranges.MapRangesSound | src/day5.rs:21-29 | every value in the mapped ranges is the translation of some input value |
| Day5Ranges.MapRangesAllComplete | src/day5.rs:63-73 | a seed's location lies in the ranges mapped through all stages |
| Day5Ranges.MapRangesAllSound | src/day5.rs:63-73 | every value of the fully mapped ranges is the location of some seed in range |
| Day5Ranges.LowestStart | src/day5.rs:233 | the lowest start of the non-empty ranges, or None when every range is empty |
| Day5Ranges.LowestStartIsLeast | src/day5.rs:233 | the lowest start is the smallest value in any range |
| Day5Ranges.LowestLocation | src/day5.rs:236-247 | the lowest location over the seed ranges, computed on intervals, is reached by a seed and is at most every seed's location |
| Day5Ranges.ScanRanges | src/day5.rs:238-245 | scanning seed by seed, keeping the smaller location, yields the least location in the ranges |
| Day5Ranges.BruteForceLowestLocation | src/day5.rs:236-247 | the brute-force scan finds the lowest location of any seed in the ranges |
| Day5Ranges.RangesAgreeWithBruteForce | src/day5.rs:236-247 | the interval computation and the brute-force scan give the same answer |
| Day5Ranges.SeedRangesCover | src/day5.rs:81-85 | a seed lies in the pairwise ranges exactly when it lies in some (start, length) pair |
| Day5Ranges.LowestPairedLocation | src/day5.rs:236-247 | part two read by pairs: None exactly when every pair is empty, otherwise the least location over all seeds of all pairs |
| Day6.ParseAll | src/day6.rs:9-10 | a row parses exactly when every field does, and keeps their values in order |
| Day6.Fields | src/day6.rs:9 | the fields are the white-space-separated words after the first one |
| Day6.ParseRow | src/day6.rs:9-10 | a row parses exactly when every field after the tag reads as an unsigned number, and gives those numbers in order |
| Day6.Zip | src/day6.rs:11 | zipping pairs the columns and stops at the shorter one |
| Day6.ParseInput | src/day6.rs:8-13 | the input parses exactly when both rows do; race i pairs field i of each row, up to the shorter row |
| Day6.ZipColumns | src/day6.rs:11 | zipping a list's time and distance columns rebuilds the list |
| Day6.RowRoundTrip | src/day6.rs:9-10 | a printed row parses back to its numbers |
| Day6.InputRoundTrip | src/day6.rs:8-13 | the printed "Time:" and "Distance:" rows parse back to the same races |
| Day6.CountWins | src/day6.rs:26 | the count of winning hold times below n is at most n - 1 |
| Day6.Ways | src/day6.rs:26 | a race of t milliseconds has at most t - 1 winning holds, since holding 0 never wins |
| Day6.WaysIsSize | src/day6.rs:26 | the number of ways is the size of the set of hold times below t that go further than the record |
| Day6.WinsMirror | src/day6.rs:26 | holding x and holding t - x go the same distance |
| Day6.WinsBetween | src/day6.rs:26 | every hold time between two winning ones also wins |
| Day6.WinnersBetween | src/day6.rs:26 | the winners are exactly the hold times from the shortest winner lo up to t - lo |
| Day6.WaysFromShortest | src/day6.rs:26 | the number of ways is t + 1 - 2·lo, where lo is the shortest winning hold |
| Day6.WaysPerRace | src/day6.rs:25-27 | one count of ways per race, in order |
| Day6.Solution1 | src/day6.rs:24-31 | the product is 0 exactly when some race cannot be won |
| Day6.ProductZero | src/day6.rs:29 | a product is zero exactly when some factor is zero |
| Day6.JoinDecimalsValue | src/day6.rs:34-35 | the joined numerals denote the kerned number, each number shifted past the digits of the later ones |
| Day6.Solution2 | src/day6.rs:33-40 | part two fails exactly when there are no races (the joined string is empty); otherwise it counts the ways of the kerned race |
| Day6.Solution1Example | src/day6.rs:24-31 | the races 7/9, 15/40 and 30/200 give 288 |
| Day6.Solution2Example | src/day6.rs:33-40 | the same races, kerned into 71530/940200, give 71503 |
| Day7.HandTypeOrder | src/day7.rs:22-31 | the hand types are ordered as declared, weakest first, and no two types share a position |
| Day7.CardValue | src/day7.rs:72-85 | digit cards are worth at most 9 and face cards 10 to 14, so every face card outranks every digit |
| Day7.CardValuesFollowRanking | src/day7.rs:72-85 | the cards 2 to A are worth 2 to 14 in order; with jokers the joker is the weakest card |
| Day7.CardValueWithJokers | src/day7.rs:52-65 | with jokers, J is worth 1 and every other card keeps its plain value |
| Day7.CardValueInjective | src/day7.rs:72-85 | without jokers, two cards with the same value are the same card |
| Day7.CountBounds | src/day7.rs:90 | a card's count is at most the hand length, and zero exactly when the card is absent |
| Day7.WithoutSpec | src/day7.rs:92-93 | dropping the wildcard keeps exactly the other cards, with their counts |
| Day7.DistinctSpec | src/day7.rs:94-95 | the distinct cards are the hand's cards, each once |
| Day7.GroupsSpec | src/day7.rs:95-97 | one group per distinct card, sized by that card's count, never 0 |
| Day7.SortDescendingSpec | src/day7.rs:98-99 | the group sizes sorted in reverse order form a descending permutation |
| Day7.TypWithWildcard | src/day7.rs:87-113 | the wildcard cards join the largest group of the other cards, and that sum with the second-largest group decides the type; a hand without the wildcard is classified from the group sizes of all its cards, with no jokers added |
| Day7.ClassifiedByTopTwo | src/day7.rs:101-112 | some largest group and optional second-largest group of the sizes exist from which the type is classified, the jokers added to the largest |
| Day7.ClassifyGroupsTopTwo | src/day7.rs:101-112 | the type depends only on the largest group plus the jokers, and on the second-largest group |
| Day7.Classify | src/day7.rs:101-112 | for a largest group of 1 to 5 cards the type has that largest group, and it is a full house or two pair exactly when the largest group is 2 or 3 and the second is 2 |
| Day7.ClassifyMonotone | src/day7.rs:101-112 | adding wildcards to the largest group never gives a weaker type |
| Day7.AllWildcardsFive | src/day7.rs:102-105 | five wildcards are five of a kind, because the missing first group counts as 0 |
| Day7.DistinctCardsHighCard | src/day7.rs:104-111 | five different non-wildcard cards make a high card |
| Day7.Typ | src/day7.rs:115-118 | without a `*` in the hand, the plain type uses all the groups and no jokers |
| Day7.Typ32T3K | src/day7.rs:169 | 32T3K is one pair |
| Day7.TypKTJJT | src/day7.rs:170 | KTJJT is two pair |
| Day7.TypKK677 | src/day7.rs:171 | KK677 is two pair |
| Day7.TypT55J5 | src/day7.rs:172 | T55J5 is three of a kind |
| Day7.TypQQQJA | src/day7.rs:173 | QQQJA is three of a kind |
| Day7.CmpFirstCard | src/day7.rs:47-50 | equal-type hands are ordered by the first position whose card values differ |
| Day7.DifferentCardsComparable | src/day7.rs:47-50 | two different hands of real cards and equal length have a differing card, so the first-card comparison does not run out of positions |
| Day7.Cmp | src/day7.rs:121-131 | a higher type wins; on equal types the first differing card decides; hands that can be compared never tie |
| Day7.WeakerByType | src/day7.rs:121-126 | a hand of a weaker type is the weaker hand |
| Day7.WeakerByCard | src/day7.rs:127-129 | between hands of one type, the hand with the lower card at the first differing position is the weaker |
| Day7.CmpAntisymmetric | src/day7.rs:35-45 | with or without jokers, a is less than b exactly when b is greater than a |
| Day7.CmpTransitive | src/day7.rs:121-131 | if a < b and b < c then a < c |
| Day7.WeakerIsStrictOrder | src/day7.rs:121-131 | the hand order, with or without jokers, is a strict order |
| Day7.ComparableIsConnex | src/day7.rs:154 | when every two hands can be compared, any two hands are ordered one way or the other |
| Day7.SortHands | src/day7.rs:154 | ranking sorts the hands into an ascending permutation |
| Day7.SortHandsIsRanking | src/day7.rs:154 | an arrangement of the hands in which each hand is weaker than the next is exactly what sorting returns |
| Day7.SolutionOrderIndependent | src/day7.rs:153-161 | the winnings depend only on the multiset of hands, not on the input order |
| Day7.WinningsAreRankTimesBid | src/day7.rs:154 | the winnings are the sum of each hand's rank times its bid |
| Day7.WinningsFrom | src/day7.rs:154 | the hand at position k of the ranking adds (rank + k) times its bid, so no such term exceeds the total |
| Day7.RankedBidCounted | src/day7.rs:154 | a hand at any rank contributes at least its bid to the winnings |
| Day7.Solution | src/day7.rs:153-161 | every hand's bid is part of the total winnings |
| Day7.ParseHand | src/day7.rs:143-151 | a parsed hand has non-empty cards without white space |
| Day7.ParseHandRoundTrip | src/day7.rs:143-151 | a printed "cards bid" line parses back to the same hand |
| Day7.JokerSortingExample | src/day7.rs:197-204 | with jokers, JJJJJ beats Q385K |
| Day7.PairSortExample | src/day7.rs:167-181 | 32T3K, KTJJT, KK677, T55J5 and QQQJA are each weaker than the next, whatever their bids |
| Day7.SecondCardDecides | src/day7.rs:176 | KTJJT and KK677 first differ at their second card, where T is below K |
| Day7.FirstCardDecides | src/day7.rs:178 | T55J5 and QQQJA differ at their first card, where T is below Q |
| Day7.SampleComparable | src/day7.rs:185-186 | every two hands of the sample can be compared |
| Day7.SampleOrdering | src/day7.rs:183-195 | sorting the sample ranks 32T3K, KTJJT, KK677, T55J5, QQQJA from weakest to strongest |
| Day7.RankedSample | src/day7.rs:188-192 | the test's order of the sample hands ascends |
| Day7.SampleWinnings | src/day7.rs:153-155 | the sample's total winnings are 6440 |
| Day8.Take1 | src/day8.rs:25 | `alphanumeric1` takes a non-empty maximal run and fails exactly on an empty input or a bad first character |
| Day8.ParseNode | src/day8.rs:23-28 | a node line consumes input |
| Day8.ParseNodes | src/day8.rs:32 | `many1` of node lines yields nothing exactly when the first node line fails |
| Day8.ReadInput | src/day8.rs:30-36 | a parsed input has non-empty instructions and at least one node |
| Day8.NodeRoundTrip | src/day8.rs:23-28 | a printed "X = (L, R)" line parses back to its node |
| Day8.NodesRoundTrip | src/day8.rs:32 | printed node lines parse back to the same node list |
| Day8.InputRoundTrip | src/day8.rs:30-36 | a printed input parses back to its instructions and nodes |
| Day8.NodeExample | src/day8.rs:23-28 | "X = (L, R)" followed by a newline parses to the node X with children L and R |
| Day8.LessTotal | src/day8.rs:41 | label order is total: two different labels are ordered one way or the other |
| Day8.NodeOrder | src/day8.rs:41 | ordering nodes by label is a strict order |
| Day8.SortTable | src/day8.rs:41 | sorting the table gives a permutation of the nodes, ascending by label |
| Day8.Find | src/day8.rs:46-49 | lookup finds a node with that label, and finds nothing exactly when no node has it |
| Day8.Search | src/day8.rs:46 | binary search on the sorted table returns the index of the label, or None only when the label is absent |
| Day8.FindSorted | src/day8.rs:41-47 | looking up in the sorted table finds the same node as looking up in the input list |
| Day8.Move | src/day8.rs:50-56 | a step succeeds exactly when the label is present and the instruction is L or R; L takes the left child and R the right |
| Day8.WalkFrom | src/day8.rs:45-62 | a finished walk takes between 1 and fuel more steps; a bad instruction is one of the instructions and is not L or R |
| Day8.Solution1 | src/day8.rs:38-64 | no instructions means 0 steps; otherwise a finished walk takes from 1 to fuel steps, and a missing label is absent from the table |
| Day8.Solution1Sorted | src/day8.rs:38-64 | the loop over the sorted table, with binary search, gives the same outcome as the walk over the input list |
| Day8.WalkArrives | src/day8.rs:58-61 | a finished walk of n steps is at ZZZ after n steps and was not at ZZZ after any earlier step |
| Day8.FirstArrival | src/day8.rs:58-61 | if ZZZ is first reached after n steps, within the fuel, the answer is n |
| Day8.StuckStaysStuck | src/day8.rs:45-56 | once the walk cannot continue, it cannot continue after any later step either |
| Day8.InstructionTwice | src/day8.rs:39 | cycling the instructions doubled gives the same instruction at every step |
| Day8.CyclicInstructions | src/day8.rs:39-45 | repeating the instruction string does not change the answer |
| Day8.LoopExample | src/day8.rs:38-64 | LLR over AAA, BBB and ZZZ takes 6 steps |
| Day8.BranchExample | src/day8.rs:38-64 | RL over the seven-node network takes 2 steps |
| Day8.BadLetterExample | src/day8.rs:50-56 | an instruction other than L or R stops the walk at that instruction |
| Day8.MissingStartExample | src/day8.rs:46 | a table without AAA stops the walk at the first lookup |

## Left out

- Reading input files, `main` functions, `println!` output and `main.rs` are I/O and are not modelled.
- The nom and regex libraries are not modelled as written. Each parser used is re-stated on `seq<char>` as `Ok(value, rest) | Fail`. Error values are not kept, only failure.
- Integer widths are not modelled: u8, u32, u64 and usize become unbounded naturals. Overflow, wrap-around and the `as u32`/`as u64` casts are out of scope.
- The `usize` to `i32` casts in day 3's neighbour test are not modelled. Dafny's natural subtraction already yields the same -1 edge.
- Panics (`unwrap` on a missing value, `panic!()`, the first-card comparison running out of positions) are preconditions, with two exceptions: the day 8 walk returns an `Outcome`, and `Day7.ParseHand` returns `None` for a bid that is not a number.
- `Day7.ParseHand`: a bid that is not a decimal number gives `None`. The code panics there, in `u64::from_str_radix(points, 10).unwrap()` (src/day7.rs:146). Only lines with fewer than two words give the code's `Err`.
- White space is the six ASCII white-space characters. Unicode white space beyond ASCII is not modelled for `trim` and `split_whitespace`.
- `Day1.FindNumberishesSpec`: stated for any table that meets `ValidTable`, not only the program's. `Day1.NumberishesValid` proves that the program's table meets it.
- `Day1.FindNumberishes`: positions are character indices. The code's `match_indices` (src/day1.rs:40) reports byte offsets, which differ after a non-ASCII character. The byte offsets are modelled as `Day1.FindNumberishesBytes`, and `Day1.ByteOffsetsKeepDigits` proves that the first and last digits, and so the line value, are the same under both.
- `Day1.MinEntry`: sorting by index and taking the first or last entry is modelled as a minimum or maximum by index. Two entries never share an index (`Day1.PatternsExclusive`), so stability does not matter.
- The day 1 test tables (`test_get_first_digit` and the others) are covered through the spec lemmas and two regressions. They are not restated line by line.
- `Day2.GameExample`: the game line is given in pieces joined by `+`, not as one literal.
- Day 3's answers (`Day3.PartNumbers`, `Day3.PartSum`, `Day3.RatioSum`) use character columns for the boxes, the corrected reading under "Findings". The code's byte columns are modelled beside them (`Day3.ByteColumnsPartsAndSymbols`) and agree on ASCII input (`Day3.AsciiColumnsAgree`).
- Day 3's grid scan is not restated for the ten-row test literal. The example lemmas start from the boxes and symbols the test asserts.
- `Day4.SixCardsExample`: the cards are given by their match counts, not by their number lists. Card 1's count is derived from its lists in `Day4.FirstCardExample`.
- `Day4.ParseRenderCard`: the rendered card text uses runs of spaces of any positive length. Tabs, which `space1` also accepts, are not rendered.
- Day 5's whole-almanac parser (`parse`, `parse_seeds` and the section headers) is not modelled. `Day5.ParseStage` models one section's rule lines.
- `Day5.MapLine`: a rule line is split at white space, which is looser than nom's `digit1 space1 digit1 space1 digit1` (src/day5.rs:99-108) in three ways. The model accepts leading blanks (" 50 98 2"), which `digit1` rejects. It accepts `\r`, `\x0B` and `\x0C` between fields, which `space1` (spaces and tabs only) rejects. It rejects trailing text after the third number, which nom leaves unconsumed and accepts.
- Day 5's `translate_seed_ranges` is not modelled. It builds every seed of every window as a list, and it is only called from commented-out code.
- `Day5Ranges` is an interval-level reformulation with no counterpart in the code. It is proved equal to the brute-force scan that `main` has commented out.
- Day 6 and day 8 have no tests in the source. Their examples are the puzzle's sample inputs.
- `Day7.CardValuesFollowRanking`: the ten ASCII digits, including `0` and `1`, are valued as `card_value` values them. Other characters that `char::is_numeric` accepts, such as '½', make `u8::from_str_radix(..).unwrap()` panic (src/day7.rs:52-54, 72-74); `Day7.IsCard` excludes them. Only the thirteen real cards are proved to be in order.
- `Day7.SampleOrdering`: the sample file the test reads is not part of this model. Its five hands are restated as `Day7.Sample`, with the puzzle's published sample bids (765, 684, 28, 220, 483).
- `Day7.Cmp`: defined only for hands that can be compared, meaning different types or a differing card. Equal hands make `cmp_first_card` panic.
- `Day4.TransitiveValue`: a card with matches must win copies of later cards only, within the list (`Day4.Ordered`). Cards without matches may carry any id. A card whose won range points backwards without forming a cycle is evaluated by the code but not by the model.
- `Day5.SortByDst`: sort stability is not modelled, so the order of two rules with the same `dst` is left open. Sort stability is not modelled elsewhere either. `Sorting.AscendingUnique` shows that the result does not depend on the algorithm whenever no two elements tie.
- `Day8.Solution1`: the labels must be unique. With duplicate labels, `binary_search_by_key` may return any of the matching nodes.
- `Day8.WalkFrom`: the walk runs for at most `fuel` steps and returns `OutOfFuel` after that. A walk that never reaches ZZZ, which loops forever in the code, is therefore not modelled as non-termination.
- Day 8's `solution2` (simultaneous walks from every `..A` label) is not modelled.

## Findings

| source | as written | input that shows it | evidently intended | confidence | as-written member | corrected member |
|---|---|---|---|---|---|---|
| src/day5.rs:81-85 | `tuple_windows` pairs every seed with the next one, so the windows overlap | seeds `79 14 55 13` give the ranges [79, 93), [14, 69) and [55, 68); the middle one is not a (start, length) pair | consecutive non-overlapping (start, length) pairs: [79, 93) and [55, 68) | not executed | Day5.GetSeedRangesOverlaps | Day5Ranges.LowestPairedLocation |
| src/day3.rs:55-59 | number boxes take their columns from the regular-expression match, `start()` and `end() - 1`, which are byte offsets; symbols take theirs from `chars().enumerate()` (src/day3.rs:45-51), which counts characters | the one-line schematic "€1": the symbol € is at column 0 and the digit 1 at character column 1, but its box is at byte column 3, so the part sum is 0 | character columns for both, so a digit touching a symbol always counts (part sum 1 here) | not executed | Day3.MixedColumnsExample | Day3.TouchingDigitIsPart |
