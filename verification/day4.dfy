/**
 * Day 4: Scratchcards. A card lists winning numbers and the numbers it has;
 * its matches are the numbers it has that are winning, its score doubles
 * with each match after the first, and in part two each match wins a copy
 * of one of the following cards, which wins copies in its turn.
 */
module Day4 {
  import opened Common
  import opened Nom

  /** A card as built from a parsed line: the matches and the score are
      computed once, when the card is made. */
  datatype Card = Card(id: nat, winning: seq<nat>, have: seq<nat>, matches: nat, score: nat)

  // ---------------------------------------------------------------------
  // Matches and score
  // ---------------------------------------------------------------------

  /** How many of the numbers in `have` (counting repeats) are winning. */
  function CountMatches(winning: seq<nat>, have: seq<nat>): (m: nat)
    ensures m <= |have|
  {
    if |have| == 0 then 0
    else (if have[0] in winning then 1 else 0) + CountMatches(winning, have[1..])
  }

  lemma {:induction false} CountMatchesAppend(winning: seq<nat>, a: seq<nat>, b: seq<nat>)
    ensures CountMatches(winning, a + b) == CountMatches(winning, a) + CountMatches(winning, b)
  {
    if |a| > 0 {
      assert (a + b)[1..] == a[1..] + b;
      CountMatchesAppend(winning, a[1..], b);
    } else {
      assert a + b == b;
    }
  }

  /** No match exactly when no number the card has is winning. */
  lemma {:induction false} NoMatches(winning: seq<nat>, have: seq<nat>)
    ensures CountMatches(winning, have) == 0 <==> forall k :: 0 <= k < |have| ==> have[k] !in winning
  {
    if |have| > 0 {
      NoMatches(winning, have[1..]);
      assert forall k :: 1 <= k < |have| ==> have[k] == have[1..][k - 1];
    }
  }

  /** Every number matches exactly when every number the card has is winning. */
  lemma {:induction false} AllMatch(winning: seq<nat>, have: seq<nat>)
    ensures CountMatches(winning, have) == |have| <==> forall k :: 0 <= k < |have| ==> have[k] in winning
  {
    if |have| > 0 {
      AllMatch(winning, have[1..]);
      assert forall k :: 1 <= k < |have| ==> have[k] == have[1..][k - 1];
    }
  }

  /** The order of the winning numbers does not matter, only which they are. */
  lemma {:induction false} MatchesDependOnWinningSet(w1: seq<nat>, w2: seq<nat>, have: seq<nat>)
    requires forall x :: x in w1 <==> x in w2
    ensures CountMatches(w1, have) == CountMatches(w2, have)
  {
    if |have| > 0 {
      MatchesDependOnWinningSet(w1, w2, have[1..]);
    }
  }

  function Pow2(k: nat): (p: nat)
    ensures p >= 1
  {
    if k == 0 then 1 else 2 * Pow2(k - 1)
  }

  /** Worth nothing without matches, 1 for the first match, and doubled by
      every further match. */
  function Score(m: nat): (s: nat)
    ensures s > 0 <==> m > 0
    ensures m >= 1 ==> 2 * s == Pow2(m)
  {
    if m == 0 then 0 else Pow2(m - 1)
  }

  lemma ScoreDoubles(m: nat)
    ensures Score(0) == 0 && Score(1) == 1
    ensures m >= 1 ==> Score(m + 1) == 2 * Score(m)
    ensures Score(m) > 0 <==> m > 0
  {
  }

  /** Building a card counts its matches and scores them. */
  function NewCard(id: nat, winning: seq<nat>, have: seq<nat>): (c: Card)
    ensures c.id == id && c.winning == winning && c.have == have
    ensures c.matches <= |have|
    ensures c.matches == 0 ==> c.score == 0
    ensures c.matches > 0 ==> c.score == Pow2(c.matches - 1)
  {
    var m := CountMatches(winning, have);
    Card(id, winning, have, m, Score(m))
  }

  /** Part one's answer: the scores of all cards added up. */
  function ScoreSum(cards: seq<Card>): (r: nat)
    ensures forall i :: 0 <= i < |cards| ==> cards[i].score <= r
    ensures r == 0 <==> forall i :: 0 <= i < |cards| ==> cards[i].score == 0
  {
    if |cards| == 0 then 0 else cards[0].score + ScoreSum(cards[1..])
  }

  /** The total over two lists of cards adds the two totals. */
  lemma {:induction false} ScoreSumAppend(a: seq<Card>, b: seq<Card>)
    ensures ScoreSum(a + b) == ScoreSum(a) + ScoreSum(b)
  {
    if |a| == 0 {
      assert a + b == b;
    } else {
      ScoreSumAppend(a[1..], b);
      assert (a + b)[1..] == a[1..] + b;
    }
  }

  /** For cards scored as `NewCard` scores them, the total is the sum of
      the scores of their match counts. */
  lemma {:induction false} ScoreSumOfMatches(cards: seq<Card>)
    requires forall i :: 0 <= i < |cards| ==> cards[i].score == Score(cards[i].matches)
    ensures ScoreSum(cards) == Sum(seq(|cards|, k requires 0 <= k < |cards| => Score(cards[k].matches)))
  {
    if |cards| > 0 {
      ScoreSumOfMatches(cards[1..]);
      assert seq(|cards|, k requires 0 <= k < |cards| => Score(cards[k].matches))[1..]
          == seq(|cards| - 1, k requires 0 <= k < |cards| - 1 => Score(cards[1..][k].matches));
    }
  }

  // ---------------------------------------------------------------------
  // Copies won (part two)
  // ---------------------------------------------------------------------

  /** Card `i` wins copies of the cards at positions `id .. id + matches`:
      when it wins any, those must exist and lie after the card itself. A
      card without matches wins an empty range, whatever its id. */
  predicate Ordered(cards: seq<Card>) {
    forall i :: 0 <= i < |cards| && cards[i].matches > 0 ==>
      i < cards[i].id && cards[i].id + cards[i].matches <= |cards|
  }

  /** The number of cards one copy of card `i` ends up as: itself plus
      whatever the copies it wins are worth. */
  function TransitiveValue(cards: seq<Card>, i: nat): (v: nat)
    requires Ordered(cards) && i < |cards|
    ensures v >= 1 + cards[i].matches
    ensures cards[i].matches == 0 ==> v == 1
    decreases |cards| - i, 0
  {
    if cards[i].matches == 0 then 1
    else 1 + ValueOfRange(cards, cards[i].id, cards[i].id + cards[i].matches)
  }

  /** The summed value of the cards at positions `lo .. hi`. */
  function ValueOfRange(cards: seq<Card>, lo: nat, hi: nat): (v: nat)
    requires Ordered(cards) && lo <= hi <= |cards|
    ensures v >= hi - lo
    decreases |cards| - lo, 1
  {
    if lo == hi then 0 else TransitiveValue(cards, lo) + ValueOfRange(cards, lo + 1, hi)
  }

  /** The total number of cards at the end: every original card's value. */
  function TotalCards(cards: seq<Card>): (r: nat)
    requires Ordered(cards)
    ensures r >= |cards|
    ensures r == |cards| <==> forall i :: 0 <= i < |cards| ==> cards[i].matches == 0
  {
    var r := ValueOfRange(cards, 0, |cards|);
    if forall i | 0 <= i < |cards| :: cards[i].matches == 0 then
      NoMatchesWorthOne(cards, 0, |cards|);
      r
    else
      var i :| 0 <= i < |cards| && cards[i].matches > 0;
      RangeExceedsLength(cards, 0, |cards|, i);
      r
  }

  /** A range holding a card with matches is worth more than one copy
      per card. */
  lemma {:induction false} RangeExceedsLength(cards: seq<Card>, lo: nat, hi: nat, i: nat)
    requires Ordered(cards) && lo <= i < hi <= |cards| && cards[i].matches > 0
    ensures ValueOfRange(cards, lo, hi) > hi - lo
    decreases i - lo
  {
    if lo < i {
      RangeExceedsLength(cards, lo + 1, hi, i);
    }
  }

  /** The value of every card, computed from the last card to the first so
      that each card's value only adds up values already known. */
  method MemoValues(cards: seq<Card>) returns (values: seq<nat>, total: nat)
    requires Ordered(cards)
    ensures |values| == |cards|
    ensures forall i :: 0 <= i < |cards| ==> values[i] == TransitiveValue(cards, i)
    ensures total == TotalCards(cards)
  {
    var known: seq<nat> := [];
    var i := |cards|;
    while i > 0
      invariant 0 <= i <= |cards| && |known| == |cards| - i
      invariant forall j :: i <= j < |cards| ==> known[j - i] == TransitiveValue(cards, j)
    {
      i := i - 1;
      var sum := 0;
      if cards[i].matches > 0 {
        sum := SumKnown(cards, known, i + 1, cards[i].id, cards[i].id + cards[i].matches);
      }
      known := [1 + sum] + known;
    }
    values := known;
    total := SumKnown(cards, values, 0, 0, |cards|);
  }

  /** Adds up the known values of positions `lo .. hi`, where `known` holds
      the values from position `from` on. */
  method SumKnown(cards: seq<Card>, known: seq<nat>, from: nat, lo: nat, hi: nat) returns (sum: nat)
    requires Ordered(cards) && from <= lo <= hi <= |cards| && |known| == |cards| - from
    requires forall j :: from <= j < |cards| ==> known[j - from] == TransitiveValue(cards, j)
    ensures sum == ValueOfRange(cards, lo, hi)
  {
    sum := 0;
    var k := hi;
    while k > lo
      invariant lo <= k <= hi
      invariant sum + ValueOfRange(cards, lo, k) == ValueOfRange(cards, lo, hi)
    {
      k := k - 1;
      ValueOfRangeSplit(cards, lo, k, k + 1);
      sum := sum + known[k - from];
    }
  }

  /** Cards without matches win nothing, whatever their ids (duplicates
      and ids past the end included): each is worth exactly itself. */
  lemma {:induction false} NoMatchesWorthOne(cards: seq<Card>, lo: nat, hi: nat)
    requires forall i :: 0 <= i < |cards| ==> cards[i].matches == 0
    requires lo <= hi <= |cards|
    ensures Ordered(cards) && ValueOfRange(cards, lo, hi) == hi - lo
    decreases hi - lo
  {
    if lo < hi {
      NoMatchesWorthOne(cards, lo + 1, hi);
    }
  }

  lemma {:induction false} ValueOfRangeSplit(cards: seq<Card>, lo: nat, mid: nat, hi: nat)
    requires Ordered(cards) && lo <= mid <= hi <= |cards|
    ensures ValueOfRange(cards, lo, hi) == ValueOfRange(cards, lo, mid) + ValueOfRange(cards, mid, hi)
    decreases mid - lo
  {
    if lo < mid {
      ValueOfRangeSplit(cards, lo + 1, mid, hi);
    }
  }

  // ---------------------------------------------------------------------
  // Reading a card
  // ---------------------------------------------------------------------

  /** The loop of a blank-separated number list after the first number: it
      stops before blanks that are not followed by a number. */
  function NumbersAfter(s: string, acc: seq<nat>): (p: Parsed<seq<nat>>)
    ensures p.Ok? && |p.value| >= |acc| && |p.rest| <= |s|
    decreases |s|
  {
    match Space1(s)
    case None => Ok(acc, s)
    case Some(s1) =>
      match Digit1(s1)
      case Fail => Ok(acc, s)
      case Ok(n, s2) => NumbersAfter(s2, acc + [n])
  }

  /** One or more numbers separated by blanks. */
  function ParseNumbers(s: string): (p: Parsed<seq<nat>>)
    ensures p.Ok? ==> |p.value| >= 1 && |p.rest| < |s|
  {
    match Digit1(s)
    case Fail => Fail
    case Ok(n, s1) => NumbersAfter(s1, [n])
  }

  /** A card line: "Card", blanks, the id, ':', blanks, then the lists.
      What parses starts with the tag, has at least one number on each side
      of the bar, and consumes input. */
  function ParseCard(s: string): (r: Parsed<Card>)
    ensures r.Ok? ==> "Card" <= s && |r.rest| < |s|
    ensures r.Ok? ==> |r.value.winning| >= 1 && |r.value.have| >= 1
  {
    match Tag("Card", s)
    case None => Fail
    case Some(s1) =>
      match Space1(s1)
      case None => Fail
      case Some(s2) =>
        match Digit1(s2)
        case Fail => Fail
        case Ok(id, s3) =>
          match Tag(":", s3)
          case None => Fail
          case Some(s4) =>
            match Space1(s4)
            case None => Fail
            case Some(s5) => ParseCardLists(id, s5)
  }

  /** The two number lists of a card and the bar between them. */
  function ParseCardLists(id: nat, s: string): (r: Parsed<Card>)
    ensures r.Ok? ==> r.value.id == id && |r.rest| < |s|
    ensures r.Ok? ==> |r.value.winning| >= 1 && |r.value.have| >= 1
  {
    match ParseNumbers(s)
    case Fail => Fail
    case Ok(winning, s1) =>
      match Space1(s1)
      case None => Fail
      case Some(s2) =>
        match Tag("|", s2)
        case None => Fail
        case Some(s3) =>
          match Space1(s3)
          case None => Fail
          case Some(s4) =>
            match ParseNumbers(s4)
            case Fail => Fail
            case Ok(have, rest) => Ok(NewCard(id, winning, have), rest)
  }

  /** Every line must be a card; one that is not makes the input fail. */
  function ParseCards(lines: seq<string>): (r: Option<seq<Card>>)
    ensures r.Some? <==> forall k :: 0 <= k < |lines| ==> ParseCard(lines[k]).Ok?
    ensures r.Some? ==> |r.value| == |lines|
    ensures r.Some? ==> forall k :: 0 <= k < |lines| ==> ParseCard(lines[k]).Ok? && ParseCard(lines[k]).value == r.value[k]
  {
    var ps := seq(|lines|, k requires 0 <= k < |lines| => ParseCard(lines[k]));
    assert forall k :: 0 <= k < |lines| ==> ps[k] == ParseCard(lines[k]);
    Collect(ps)
  }

  // ---------------------------------------------------------------------
  // Printing a card and reading it back
  // ---------------------------------------------------------------------

  /** Numbers with the given runs of spaces between them. */
  function RenderNumbers(ns: seq<nat>, gaps: seq<nat>): string
    requires |ns| == |gaps| + 1
  {
    if |gaps| == 0 then Decimal(ns[0])
    else Decimal(ns[0]) + (Spaces(gaps[0]) + RenderNumbers(ns[1..], gaps[1..]))
  }

  predicate Positive(gaps: seq<nat>) {
    forall k :: 0 <= k < |gaps| ==> gaps[k] > 0
  }

  /** Where a card line puts its spaces: after "Card", after the colon,
      before and after the bar, and inside each list. */
  datatype Layout = Layout(afterCard: nat, afterColon: nat, beforeBar: nat, afterBar: nat,
                           inWinning: seq<nat>, inHave: seq<nat>)

  predicate FitsLayout(l: Layout, winning: seq<nat>, have: seq<nat>) {
    && l.afterCard > 0 && l.afterColon > 0 && l.beforeBar > 0 && l.afterBar > 0
    && |winning| == |l.inWinning| + 1 && |have| == |l.inHave| + 1
    && Positive(l.inWinning) && Positive(l.inHave)
  }

  /** A card line followed by `tail`. */
  function RenderCardOnto(id: nat, winning: seq<nat>, have: seq<nat>, l: Layout, tail: string): string
    requires FitsLayout(l, winning, have)
  {
    "Card" + (Spaces(l.afterCard) + (Decimal(id) + (":" + (Spaces(l.afterColon)
      + RenderListsOnto(winning, have, l, tail)))))
  }

  /** The two lists and the bar of a card line, followed by `tail`. */
  function RenderListsOnto(winning: seq<nat>, have: seq<nat>, l: Layout, tail: string): string
    requires FitsLayout(l, winning, have)
  {
    RenderNumbers(winning, l.inWinning) + (Spaces(l.beforeBar) + ("|" + (Spaces(l.afterBar)
      + (RenderNumbers(have, l.inHave) + tail))))
  }

  function RenderCard(id: nat, winning: seq<nat>, have: seq<nat>, l: Layout): string
    requires FitsLayout(l, winning, have)
  {
    RenderCardOnto(id, winning, have, l, "")
  }

  /** What may follow a card line without being read as part of it. */
  predicate Ends(tail: string) {
    |tail| == 0 || (!IsBlank(tail[0]) && !IsDigit(tail[0]))
  }

  lemma NumbersAfterStep(s: string, acc: seq<nat>, body: string, n: nat, rest: string)
    requires Space1(s) == Some(body) && Digit1(body) == Ok(n, rest)
    ensures NumbersAfter(s, acc) == NumbersAfter(rest, acc + [n])
  {
  }

  lemma NumbersAfterStops(s: string, acc: seq<nat>, body: string)
    requires Space1(s) == Some(body) && !Digit1(body).Ok?
    ensures NumbersAfter(s, acc) == Ok(acc, s)
  {
  }

  lemma NumbersAfterEnds(tail: string, acc: seq<nat>)
    requires Ends(tail)
    ensures NumbersAfter(tail, acc) == Ok(acc, tail)
  {
    assert BlankRun(tail) == 0;
  }

  lemma DecimalLead(n: nat, tail: string)
    ensures |Decimal(n) + tail| > 0 && IsDigit((Decimal(n) + tail)[0])
  {
    LeadOfAppend(Decimal(n), tail);
  }

  lemma RenderNumbersLead(ns: seq<nat>, gaps: seq<nat>, tail: string)
    requires |ns| == |gaps| + 1
    ensures |RenderNumbers(ns, gaps) + tail| > 0 && IsDigit((RenderNumbers(ns, gaps) + tail)[0])
  {
    if |gaps| == 0 {
      DecimalLead(ns[0], tail);
    } else {
      var rest := Spaces(gaps[0]) + RenderNumbers(ns[1..], gaps[1..]);
      assert RenderNumbers(ns, gaps) + tail == Decimal(ns[0]) + (rest + tail);
      DecimalLead(ns[0], rest + tail);
    }
  }

  /** The numbers after the first one, each behind its run of spaces. */
  lemma {:induction false} NumbersAfterRoundTrip(ns: seq<nat>, gaps: seq<nat>, tail: string, acc: seq<nat>)
    requires |ns| == |gaps| && |ns| > 0 && Positive(gaps) && Ends(tail)
    ensures NumbersAfter(Spaces(gaps[0]) + (RenderNumbers(ns, gaps[1..]) + tail), acc) == Ok(acc + ns, tail)
    decreases |ns|
  {
    var body := RenderNumbers(ns, gaps[1..]) + tail;
    RenderNumbersLead(ns, gaps[1..], tail);
    Space1Spaces(gaps[0], body);
    if |ns| == 1 {
      assert body == Decimal(ns[0]) + tail;
      Digit1Decimal(ns[0], tail);
      NumbersAfterStep(Spaces(gaps[0]) + body, acc, body, ns[0], tail);
      NumbersAfterEnds(tail, acc + [ns[0]]);
      assert [ns[0]] == ns;
    } else {
      var more := Spaces(gaps[1]) + (RenderNumbers(ns[1..], gaps[1..][1..]) + tail);
      RenderNumbersSplit(ns, gaps[1..], tail);
      RenderNumbersGap(ns, gaps);
      Digit1Decimal(ns[0], more);
      NumbersAfterStep(Spaces(gaps[0]) + body, acc, body, ns[0], more);
      NumbersAfterRoundTrip(ns[1..], gaps[1..], tail, acc + [ns[0]]);
      AppendHead(acc, ns);
    }
  }

  lemma RenderNumbersGap(ns: seq<nat>, gaps: seq<nat>)
    requires |ns| == |gaps| && |ns| > 1 && Positive(gaps)
    ensures |Spaces(gaps[1])| > 0 && Spaces(gaps[1])[0] == ' '
    ensures gaps[1..][1..] == gaps[2..]
  {
  }

  lemma RenderNumbersSplit(ns: seq<nat>, gaps: seq<nat>, tail: string)
    requires |ns| == |gaps| + 1 && |gaps| > 0
    ensures RenderNumbers(ns, gaps) + tail
      == Decimal(ns[0]) + (Spaces(gaps[0]) + (RenderNumbers(ns[1..], gaps[1..]) + tail))
  {
  }

  /** A list printed with runs of spaces between the numbers reads back as
      the same numbers. */
  lemma NumbersRoundTrip(ns: seq<nat>, gaps: seq<nat>, tail: string)
    requires |ns| == |gaps| + 1 && Positive(gaps) && Ends(tail)
    ensures ParseNumbers(RenderNumbers(ns, gaps) + tail) == Ok(ns, tail)
  {
    if |gaps| == 0 {
      assert RenderNumbers(ns, gaps) + tail == Decimal(ns[0]) + tail;
      Digit1Decimal(ns[0], tail);
      NumbersAfterEnds(tail, [ns[0]]);
      assert [ns[0]] == ns;
    } else {
      var more := Spaces(gaps[0]) + (RenderNumbers(ns[1..], gaps[1..]) + tail);
      RenderNumbersSplit(ns, gaps, tail);
      assert Spaces(gaps[0])[0] == ' ';
      Digit1Decimal(ns[0], more);
      NumbersAfterRoundTrip(ns[1..], gaps, tail, [ns[0]]);
      ConsTail(ns);
    }
  }

  /** The numbers of the first list, then the blanks before the bar: the
      list stops there, since the bar is not a number. */
  lemma WinningListRoundTrip(ns: seq<nat>, gaps: seq<nat>, k: nat, tail: string)
    requires |ns| == |gaps| + 1 && Positive(gaps) && k > 0
    requires |tail| > 0 && tail[0] == '|'
    ensures ParseNumbers(RenderNumbers(ns, gaps) + (Spaces(k) + tail)) == Ok(ns, Spaces(k) + tail)
  {
    var after := Spaces(k) + tail;
    Space1Spaces(k, tail);
    assert after[0] == ' ';
    if |gaps| == 0 {
      assert RenderNumbers(ns, gaps) + after == Decimal(ns[0]) + after;
      Digit1Decimal(ns[0], after);
      ListStopsBeforeBar(after, tail, [ns[0]]);
      assert [ns[0]] == ns;
    } else {
      WinningAfterRoundTrip(ns[1..], gaps, after, tail, [ns[0]]);
      RenderNumbersSplit(ns, gaps, after);
      Digit1Decimal(ns[0], Spaces(gaps[0]) + (RenderNumbers(ns[1..], gaps[1..]) + after));
      ConsTail(ns);
    }
  }

  lemma ListStopsBeforeBar(after: string, tail: string, acc: seq<nat>)
    requires |tail| > 0 && tail[0] == '|' && Space1(after) == Some(tail)
    ensures NumbersAfter(after, acc) == Ok(acc, after)
  {
    NumbersAfterStops(after, acc, tail);
  }

  lemma {:induction false} WinningAfterRoundTrip(ns: seq<nat>, gaps: seq<nat>, after: string, tail: string, acc: seq<nat>)
    requires |ns| == |gaps| && |ns| > 0 && Positive(gaps)
    requires |tail| > 0 && tail[0] == '|' && Space1(after) == Some(tail)
    requires |after| > 0 && !IsDigit(after[0])
    ensures NumbersAfter(Spaces(gaps[0]) + (RenderNumbers(ns, gaps[1..]) + after), acc) == Ok(acc + ns, after)
    decreases |ns|
  {
    var body := RenderNumbers(ns, gaps[1..]) + after;
    RenderNumbersLead(ns, gaps[1..], after);
    Space1Spaces(gaps[0], body);
    if |ns| == 1 {
      assert body == Decimal(ns[0]) + after;
      Digit1Decimal(ns[0], after);
      NumbersAfterStep(Spaces(gaps[0]) + body, acc, body, ns[0], after);
      ListStopsBeforeBar(after, tail, acc + [ns[0]]);
      assert [ns[0]] == ns;
    } else {
      var more := Spaces(gaps[1]) + (RenderNumbers(ns[1..], gaps[1..][1..]) + after);
      RenderNumbersSplit(ns, gaps[1..], after);
      RenderNumbersGap(ns, gaps);
      Digit1Decimal(ns[0], more);
      NumbersAfterStep(Spaces(gaps[0]) + body, acc, body, ns[0], more);
      WinningAfterRoundTrip(ns[1..], gaps[1..], after, tail, acc + [ns[0]]);
      AppendHead(acc, ns);
    }
  }

  lemma CardStep(s: string, s1: string, s2: string, id: nat, s3: string, s4: string, s5: string)
    requires Tag("Card", s) == Some(s1) && Space1(s1) == Some(s2) && Digit1(s2) == Ok(id, s3)
    requires Tag(":", s3) == Some(s4) && Space1(s4) == Some(s5)
    ensures ParseCard(s) == ParseCardLists(id, s5)
  {
  }

  lemma ListsStep(id: nat, s: string, w: seq<nat>, s1: string, s2: string, s3: string, s4: string, h: seq<nat>, rest: string)
    requires ParseNumbers(s) == Ok(w, s1) && Space1(s1) == Some(s2) && Tag("|", s2) == Some(s3)
    requires Space1(s3) == Some(s4) && ParseNumbers(s4) == Ok(h, rest)
    ensures ParseCardLists(id, s) == Ok(NewCard(id, w, h), rest)
  {
  }

  /** A printed card line, whatever its runs of spaces, reads back as the
      card made from its id and its two lists, leaving what follows it. */
  lemma CardRoundTrip(id: nat, winning: seq<nat>, have: seq<nat>, l: Layout, tail: string)
    requires FitsLayout(l, winning, have) && Ends(tail)
    ensures ParseCard(RenderCardOnto(id, winning, have, l, tail)) == Ok(NewCard(id, winning, have), tail)
  {
    var s5 := RenderListsOnto(winning, have, l, tail);
    var s4 := Spaces(l.afterColon) + s5;
    var s3 := ":" + s4;
    var s2 := Decimal(id) + s3;
    var s1 := Spaces(l.afterCard) + s2;
    TagAppend("Card", s1);
    DecimalLead(id, s3);
    Space1Spaces(l.afterCard, s2);
    Digit1Decimal(id, s3);
    TagAppend(":", s4);
    RenderNumbersLead(winning, l.inWinning, Spaces(l.beforeBar) + ("|" + (Spaces(l.afterBar)
      + (RenderNumbers(have, l.inHave) + tail))));
    Space1Spaces(l.afterColon, s5);
    CardStep("Card" + s1, s1, s2, id, s3, s4, s5);
    CardListsRoundTrip(id, winning, have, l, tail);
  }

  lemma ParseRenderCard(id: nat, winning: seq<nat>, have: seq<nat>, l: Layout)
    requires FitsLayout(l, winning, have)
    ensures ParseCard(RenderCard(id, winning, have, l)) == Ok(NewCard(id, winning, have), "")
  {
    CardRoundTrip(id, winning, have, l, "");
  }

  lemma CardListsRoundTrip(id: nat, winning: seq<nat>, have: seq<nat>, l: Layout, tail: string)
    requires FitsLayout(l, winning, have) && Ends(tail)
    ensures ParseCardLists(id, RenderListsOnto(winning, have, l, tail)) == Ok(NewCard(id, winning, have), tail)
  {
    var h := RenderNumbers(have, l.inHave) + tail;
    var s4 := Spaces(l.afterBar) + h;
    var s3 := "|" + s4;
    var s2 := s3;
    var s1 := Spaces(l.beforeBar) + s3;
    WinningListRoundTrip(winning, l.inWinning, l.beforeBar, s3);
    Space1Spaces(l.beforeBar, s3);
    TagAppend("|", s4);
    RenderNumbersLead(have, l.inHave, tail);
    Space1Spaces(l.afterBar, h);
    NumbersRoundTrip(have, l.inHave, tail);
    ListsStep(id, RenderNumbers(winning, l.inWinning) + s1, winning, s1, s2, s4, h, have, tail);
  }

  // ---------------------------------------------------------------------
  // The example cards
  // ---------------------------------------------------------------------

  /** The first example card has four winning numbers and scores 8. */
  lemma FirstCardExample(w: seq<nat>, h: seq<nat>)
    requires w == [41, 48, 83, 86, 17] && h == [83, 86, 6, 31, 17, 9, 48, 53]
    ensures NewCard(1, w, h).matches == 4 && NewCard(1, w, h).score == 8
  {
    assert CountMatches(w, h[8..]) == 0;
    assert h[7..][1..] == h[8..] && h[7] !in w;
    assert CountMatches(w, h[7..]) == 0;
    assert h[6..][1..] == h[7..] && h[6] in w;
    assert CountMatches(w, h[6..]) == 1;
    assert h[5..][1..] == h[6..] && h[5] !in w;
    assert CountMatches(w, h[5..]) == 1;
    assert h[4..][1..] == h[5..] && h[4] in w;
    assert CountMatches(w, h[4..]) == 2;
    assert h[3..][1..] == h[4..] && h[3] !in w;
    assert CountMatches(w, h[3..]) == 2;
    assert h[2..][1..] == h[3..] && h[2] !in w;
    assert CountMatches(w, h[2..]) == 2;
    assert h[1..][1..] == h[2..] && h[1] in w;
    assert CountMatches(w, h[1..]) == 3;
    assert h[0] in w;
    assert Score(4) == 8;
  }

  /** The six example cards, reduced to what the answers read: ids,
      matches and scores. */
  lemma SixCardsExample(cards: seq<Card>)
    requires |cards| == 6
    requires forall i :: 0 <= i < 6 ==> cards[i].id == i + 1 && cards[i].score == Score(cards[i].matches)
    requires cards[0].matches == 4 && cards[1].matches == 2 && cards[2].matches == 2
    requires cards[3].matches == 1 && cards[4].matches == 0 && cards[5].matches == 0
    ensures ScoreSum(cards) == 13
    ensures Ordered(cards) && TotalCards(cards) == 30
  {
    SixScores(cards);
    assert Ordered(cards);
    RangeStep(cards, 5, 6);
    RangeStep(cards, 4, 6);
    RangeStep(cards, 4, 5);
    RangeStep(cards, 3, 6);
    RangeStep(cards, 3, 5);
    RangeStep(cards, 3, 4);
    RangeStep(cards, 2, 6);
    RangeStep(cards, 2, 5);
    RangeStep(cards, 1, 6);
    RangeStep(cards, 1, 5);
    RangeStep(cards, 0, 6);
    assert TransitiveValue(cards, 5) == 1 && TransitiveValue(cards, 4) == 1;
    assert TransitiveValue(cards, 3) == 2;
    assert TransitiveValue(cards, 2) == 4;
    assert TransitiveValue(cards, 1) == 7;
    assert TransitiveValue(cards, 0) == 15;
  }

  lemma SixScores(cards: seq<Card>)
    requires |cards| == 6
    requires forall i :: 0 <= i < 6 ==> cards[i].score == Score(cards[i].matches)
    requires cards[0].matches == 4 && cards[1].matches == 2 && cards[2].matches == 2
    requires cards[3].matches == 1 && cards[4].matches == 0 && cards[5].matches == 0
    ensures ScoreSum(cards) == 13
  {
    assert Score(4) == 8 && Score(2) == 2 && Score(1) == 1;
    assert cards[5..][1..] == [];
    assert ScoreSum(cards[5..]) == 0;
    assert cards[4..][1..] == cards[5..];
    assert ScoreSum(cards[4..]) == 0;
    assert cards[3..][1..] == cards[4..];
    assert ScoreSum(cards[3..]) == 1;
    assert cards[2..][1..] == cards[3..];
    assert ScoreSum(cards[2..]) == 3;
    assert cards[1..][1..] == cards[2..];
    assert ScoreSum(cards[1..]) == 5;
  }

  lemma RangeStep(cards: seq<Card>, lo: nat, hi: nat)
    requires Ordered(cards) && lo < hi <= |cards|
    ensures ValueOfRange(cards, lo, hi) == TransitiveValue(cards, lo) + ValueOfRange(cards, lo + 1, hi)
    ensures ValueOfRange(cards, hi, hi) == 0
    ensures cards[lo].matches == 0 ==> TransitiveValue(cards, lo) == 1
    ensures cards[lo].matches > 0 ==>
      TransitiveValue(cards, lo) == 1 + ValueOfRange(cards, cards[lo].id, cards[lo].id + cards[lo].matches)
  {
  }
}
