/**
 * Day 7: Camel Cards. A hand is classified by the sizes of its groups of
 * equal cards, a wildcard joining the largest group; hands are ordered by
 * type first and then by the first card that differs; winnings weight each
 * hand's bid by its rank.
 */
module Day7 {
  import opened Common
  import opened Sorting

  /** Weakest first: the declaration order is the order of the types. */
  datatype HandType = HighCard | OnePair | TwoPair | ThreeOfAKind | FullHouse | FourOfAKind | FiveOfAKind

  /** Position of a type in the declaration order. */
  function Strength(t: HandType): nat {
    match t
    case HighCard => 0
    case OnePair => 1
    case TwoPair => 2
    case ThreeOfAKind => 3
    case FullHouse => 4
    case FourOfAKind => 5
    case FiveOfAKind => 6
  }

  /** The seven types, weakest first. */
  const TypeOrder: seq<HandType> :=
    [HighCard, OnePair, TwoPair, ThreeOfAKind, FullHouse, FourOfAKind, FiveOfAKind]

  /** The hand types are totally ordered as declared: each type's strength
      is its position in the declaration, so distinct types never tie. */
  lemma HandTypeOrder(t: HandType, u: HandType)
    ensures Strength(t) < |TypeOrder| && TypeOrder[Strength(t)] == t
    ensures Strength(t) == Strength(u) ==> t == u
  {
  }

  datatype Hand = Hand(cards: string, points: nat)

  datatype Ordering = Less | Equal | Greater

  // ---------------------------------------------------------------------
  // Card values
  // ---------------------------------------------------------------------

  /** The characters the card-value functions accept without panicking:
      the decimal digits and the five face letters. */
  predicate IsCard(c: char) {
    IsDigit(c) || c == 'A' || c == 'K' || c == 'Q' || c == 'J' || c == 'T'
  }

  /** The plain value of a card: every face card outranks every digit. */
  function CardValue(c: char): (v: nat)
    requires IsCard(c)
    ensures IsDigit(c) ==> v <= 9
    ensures !IsDigit(c) ==> 10 <= v <= 14
  {
    if IsDigit(c) then DigitValue(c)
    else match c
      case 'A' => 14
      case 'K' => 13
      case 'Q' => 12
      case 'J' => 11
      case _ => 10
  }

  function CardValueWithJokers(c: char): (v: nat)
    requires IsCard(c)
    ensures c != 'J' ==> v == CardValue(c)
    ensures c == 'J' ==> v == 1
  {
    if IsDigit(c) then DigitValue(c)
    else match c
      case 'A' => 14
      case 'K' => 13
      case 'Q' => 12
      case 'J' => 1
      case _ => 10
  }

  /** The value used by part one (`jokers` false) or part two (true). */
  function Value(c: char, jokers: bool): nat
    requires IsCard(c)
  {
    if jokers then CardValueWithJokers(c) else CardValue(c)
  }

  /** The real cards, weakest first, without and with jokers. */
  const Ranking: string := "23456789TJQKA"
  const JokerRanking: string := "J23456789TQKA"

  /** Card values follow the rankings: the card at position i of the
      ranking is worth i + 2, and with jokers every card is worth less than
      the next one in the joker ranking (J is then the weakest card and the
      others keep their order). */
  lemma CardValuesFollowRanking(i: nat)
    requires i < |Ranking|
    ensures IsCard(Ranking[i]) && CardValue(Ranking[i]) == i + 2
    ensures IsCard(JokerRanking[i])
    ensures i + 1 < |JokerRanking| ==>
              IsCard(JokerRanking[i + 1]) &&
              CardValueWithJokers(JokerRanking[i]) < CardValueWithJokers(JokerRanking[i + 1])
  {
    match i
    case 0 => case 1 => case 2 => case 3 => case 4 => case 5 => case 6 =>
    case 7 => case 8 => case 9 => case 10 => case 11 => case 12 =>
  }

  // ---------------------------------------------------------------------
  // Hand types
  // ---------------------------------------------------------------------

  function Count(s: string, c: char): nat {
    if |s| == 0 then 0 else (if s[0] == c then 1 else 0) + Count(s[1..], c)
  }

  /** A character occurs at most |s| times, and zero times exactly when it
      is absent. */
  lemma {:induction false} CountBounds(s: string, c: char)
    ensures Count(s, c) <= |s|
    ensures Count(s, c) == 0 <==> c !in s
  {
    if |s| > 0 {
      CountBounds(s[1..], c);
      assert s == [s[0]] + s[1..];
    }
  }

  lemma {:induction false} CountAll(s: string, c: char)
    requires forall i :: 0 <= i < |s| ==> s[i] == c
    ensures Count(s, c) == |s|
  {
    if |s| > 0 {
      CountAll(s[1..], c);
    }
  }

  /** The cards other than the wildcard, in order. */
  function Without(s: string, w: char): string {
    if |s| == 0 then ""
    else
      var rest := Without(s[1..], w);
      if s[0] == w then rest else [s[0]] + rest
  }

  /** Dropping the wildcards keeps every other card with its count and
      shortens the hand by the number of wildcards. */
  lemma {:induction false} WithoutSpec(s: string, w: char)
    ensures forall c :: c in Without(s, w) <==> c in s && c != w
    ensures forall c :: c != w ==> Count(Without(s, w), c) == Count(s, c)
    ensures |Without(s, w)| + Count(s, w) == |s|
  {
    if |s| > 0 {
      WithoutSpec(s[1..], w);
      assert s == [s[0]] + s[1..];
      var rest := Without(s[1..], w);
      if s[0] != w {
        assert ([s[0]] + rest)[1..] == rest;
      }
    }
  }

  /** Each character of `s` once. */
  function Distinct(s: string): string {
    if |s| == 0 then ""
    else
      var rest := Distinct(s[1..]);
      if s[0] in rest then rest else [s[0]] + rest
  }

  /** Exactly the characters of `s`, none twice. */
  lemma {:induction false} DistinctSpec(s: string)
    ensures forall c :: c in Distinct(s) <==> c in s
    ensures forall i, j :: 0 <= i < j < |Distinct(s)| ==> Distinct(s)[i] != Distinct(s)[j]
  {
    if |s| > 0 {
      DistinctSpec(s[1..]);
      assert s == [s[0]] + s[1..];
    }
  }

  /** The number of times each of `ds` occurs in `s`. */
  function CountsOf(s: string, ds: string): seq<nat> {
    if |ds| == 0 then [] else [Count(s, ds[0])] + CountsOf(s, ds[1..])
  }

  lemma {:induction false} CountsOfSpec(s: string, ds: string)
    ensures |CountsOf(s, ds)| == |ds|
    ensures forall i :: 0 <= i < |ds| ==> CountsOf(s, ds)[i] == Count(s, ds[i])
  {
    if |ds| > 0 {
      CountsOfSpec(s, ds[1..]);
    }
  }

  /** The sizes of the groups of equal cards, one per distinct card. */
  function Groups(s: string): seq<nat> {
    CountsOf(s, Distinct(s))
  }

  /** There is one group per distinct card, holding every copy of it. */
  lemma GroupsSpec(s: string)
    ensures |Groups(s)| == |Distinct(s)|
    ensures forall i :: 0 <= i < |Groups(s)| ==> Groups(s)[i] == Count(s, Distinct(s)[i]) > 0
  {
    CountsOfSpec(s, Distinct(s));
    DistinctSpec(s);
    forall i | 0 <= i < |Distinct(s)| ensures Count(s, Distinct(s)[i]) > 0 {
      CountBounds(s, Distinct(s)[i]);
    }
  }

  /** Each number is at least the next one. */
  predicate Descending(xs: seq<nat>) {
    forall i :: 0 < i < |xs| ==> xs[i - 1] >= xs[i]
  }

  /** Inserts `x` before the first element it is not smaller than. */
  function InsertDescending(x: nat, xs: seq<nat>): seq<nat> {
    if |xs| == 0 || x >= xs[0] then [x] + xs else [xs[0]] + InsertDescending(x, xs[1..])
  }

  lemma InsertDescendingSpec(x: nat, xs: seq<nat>)
    requires Descending(xs)
    ensures var out := InsertDescending(x, xs);
      && |out| > 0 && (out[0] == x || (|xs| > 0 && out[0] == xs[0]))
      && Descending(out)
      && multiset(out) == multiset(xs) + multiset{x}
  {
    InsertDescendingSorted(x, xs);
    InsertDescendingPermutes(x, xs);
  }

  /** Inserting keeps the numbers descending, and the head is `x` or the
      old head. */
  lemma {:induction false} InsertDescendingSorted(x: nat, xs: seq<nat>)
    requires Descending(xs)
    ensures var out := InsertDescending(x, xs);
      && |out| > 0 && (out[0] == x || (|xs| > 0 && out[0] == xs[0]))
      && Descending(out)
  {
    if |xs| > 0 && x < xs[0] {
      InsertDescendingSorted(x, xs[1..]);
      var rest := InsertDescending(x, xs[1..]);
      var out := [xs[0]] + rest;
      assert InsertDescending(x, xs) == out;
      assert rest[0] <= xs[0];
      assert forall i :: 1 < i < |out| ==> out[i] == rest[i - 1];
    }
  }

  /** Inserting adds `x` and keeps every other number. */
  lemma {:induction false} InsertDescendingPermutes(x: nat, xs: seq<nat>)
    ensures multiset(InsertDescending(x, xs)) == multiset(xs) + multiset{x}
  {
    if |xs| > 0 && x < xs[0] {
      InsertDescendingPermutes(x, xs[1..]);
      var rest := InsertDescending(x, xs[1..]);
      assert InsertDescending(x, xs) == [xs[0]] + rest;
      assert xs == [xs[0]] + xs[1..];
    }
  }

  /** Sorts largest first. */
  function SortDescending(xs: seq<nat>): seq<nat> {
    if |xs| == 0 then [] else InsertDescending(xs[0], SortDescending(xs[1..]))
  }

  /** Sorting largest first rearranges the numbers into descending order. */
  lemma {:induction false} SortDescendingSpec(xs: seq<nat>)
    ensures Descending(SortDescending(xs))
    ensures multiset(SortDescending(xs)) == multiset(xs)
  {
    if |xs| > 0 {
      SortDescendingSpec(xs[1..]);
      InsertDescendingSpec(xs[0], SortDescending(xs[1..]));
      assert xs == [xs[0]] + xs[1..];
    }
  }

  /** The type from the largest group (wildcards included) and the second
      largest group, case for case as the classification is written. */
  function Classify(largest: nat, second: Option<nat>): (t: HandType)
    ensures 1 <= largest <= 5 ==> LargestGroup(t) == largest
    ensures t == FullHouse || t == TwoPair <==> 2 <= largest <= 3 && second == Some(2)
  {
    if largest == 5 then FiveOfAKind
    else if largest == 4 then FourOfAKind
    else if largest == 3 && second == Some(2) then FullHouse
    else if largest == 3 then ThreeOfAKind
    else if largest == 2 && second == Some(2) then TwoPair
    else if largest == 2 then OnePair
    else HighCard
  }

  /** The size of the largest group of equal cards in a five-card hand
      of type `t`. */
  function LargestGroup(t: HandType): nat {
    match t
    case HighCard => 1
    case OnePair | TwoPair => 2
    case ThreeOfAKind | FullHouse => 3
    case FourOfAKind => 4
    case FiveOfAKind => 5
  }

  /** Adding wildcards to the largest group never makes a hand weaker. */
  lemma ClassifyMonotone(largest: nat, extra: nat, second: Option<nat>)
    requires largest + extra <= 5
    ensures Strength(Classify(largest, second)) <= Strength(Classify(largest + extra, second))
  {
  }

  /** The type of a hand in which every `w` is a wildcard: the number of
      wildcards joins the largest group of the other cards, and the second
      largest group of those decides between the types that share a
      largest group. Without a wildcard the hand is classified from all its
      cards. */
  function TypWithWildcard(cards: string, w: char): (t: HandType)
    ensures exists largest: nat, second: Option<nat> ::
      && IsTopTwo(multiset(Groups(Without(cards, w))), largest, second)
      && t == Classify(largest + Count(cards, w), second)
    ensures w !in cards ==> t == ClassifyGroups(Groups(cards), 0)
  {
    var t := ClassifyGroups(Groups(Without(cards, w)), Count(cards, w));
    ClassifiedByTopTwo(Groups(Without(cards, w)), Count(cards, w));
    if w !in cards then
      WithoutAbsent(cards, w);
      CountBounds(cards, w);
      t
    else
      t
  }

  /** Sorts the group sizes, largest first, and classifies by the first
      two, the wildcards joining the first. */
  function ClassifyGroups(groups: seq<nat>, jokers: nat): HandType {
    var sizes := SortDescending(groups);
    var largest := if |sizes| > 0 then sizes[0] else 0;
    var second := if |sizes| > 1 then Some(sizes[1]) else None;
    Classify(largest + jokers, second)
  }

  /** The type without jokers: the wildcard is '*', which no deck holds,
      so a hand of real cards is classified from the group sizes of all its
      cards with no wildcard added. */
  function Typ(cards: string): (t: HandType)
    ensures '*' !in cards ==> t == ClassifyGroups(Groups(cards), 0)
  {
    TypWithWildcard(cards, '*')
  }

  /** The type used by part one (`jokers` false) or part two (true). */
  function TypeOf(cards: string, jokers: bool): HandType {
    if jokers then TypWithWildcard(cards, 'J') else Typ(cards)
  }

  /** `m` is a largest element of the multiset `g`. */
  ghost predicate IsMax(g: multiset<nat>, m: nat) {
    m in g && forall x :: x in g ==> x <= m
  }

  /** `largest` and `second` are the two largest elements of the multiset
      of group sizes `g` (a tie counts twice): 0 and none for no groups,
      none for one group. */
  ghost predicate IsTopTwo(g: multiset<nat>, largest: nat, second: Option<nat>) {
    if |g| == 0 then largest == 0 && second.None?
    else
      && IsMax(g, largest)
      && (if |g| == 1 then second.None?
          else second.Some? && IsMax(g - multiset{largest}, second.value))
  }

  lemma {:induction false} DescendingHeadIsMax(xs: seq<nat>, j: nat)
    requires Descending(xs) && j < |xs|
    ensures xs[j] <= xs[0]
  {
    if j > 0 {
      DescendingHeadIsMax(xs, j - 1);
    }
  }

  lemma DescendingHeadBounds(xs: seq<nat>)
    requires Descending(xs) && |xs| > 0
    ensures IsMax(multiset(xs), xs[0])
  {
    forall x | x in multiset(xs) ensures x <= xs[0] {
      var j :| 0 <= j < |xs| && xs[j] == x;
      DescendingHeadIsMax(xs, j);
    }
  }

  lemma DescendingTopTwo(xs: seq<nat>)
    requires Descending(xs)
    ensures IsTopTwo(multiset(xs),
                     if |xs| > 0 then xs[0] else 0,
                     if |xs| > 1 then Some(xs[1]) else None)
  {
    if |xs| > 0 {
      assert xs == [xs[0]] + xs[1..];
      assert multiset(xs) - multiset{xs[0]} == multiset(xs[1..]);
      DescendingHeadBounds(xs);
      if |xs| > 1 {
        DescendingHeadBounds(xs[1..]);
      }
    }
  }

  /** The classification adds the number of wildcards to the largest group
      of the other cards and looks at the second largest group: `largest`
      and `second` are those two group sizes. */
  lemma ClassifyGroupsTopTwo(groups: seq<nat>, jokers: nat) returns (largest: nat, second: Option<nat>)
    ensures IsTopTwo(multiset(groups), largest, second)
    ensures ClassifyGroups(groups, jokers) == Classify(largest + jokers, second)
  {
    var sizes := SortDescending(groups);
    largest := if |sizes| > 0 then sizes[0] else 0;
    second := if |sizes| > 1 then Some(sizes[1]) else None;
    SortDescendingSpec(groups);
    DescendingTopTwo(sizes);
  }

  /** Some top two of the group sizes, with the wildcards added to the
      largest, give the classification. */
  lemma ClassifiedByTopTwo(groups: seq<nat>, jokers: nat)
    ensures exists largest: nat, second: Option<nat> ::
      && IsTopTwo(multiset(groups), largest, second)
      && ClassifyGroups(groups, jokers) == Classify(largest + jokers, second)
  {
    var largest, second := ClassifyGroupsTopTwo(groups, jokers);
  }

  /** Five wildcards make five of a kind. */
  lemma AllWildcardsFive(cards: string, w: char)
    requires |cards| == 5
    requires forall i :: 0 <= i < 5 ==> cards[i] == w
    ensures TypWithWildcard(cards, w) == FiveOfAKind
  {
    CountAll(cards, w);
    WithoutSpec(cards, w);
  }

  lemma {:induction false} WithoutAbsent(s: string, w: char)
    requires w !in s
    ensures Without(s, w) == s
  {
    if |s| > 0 {
      WithoutAbsent(s[1..], w);
      assert [s[0]] + s[1..] == s;
    }
  }

  // ---------------------------------------------------------------------
  // Comparing hands
  // ---------------------------------------------------------------------

  predicate AllCards(s: string) {
    forall i :: 0 <= i < |s| ==> IsCard(s[i])
  }

  /** Position `k` is the first at which the two card strings differ in
      value; every card up to it is a real card. */
  predicate FirstDiff(l: string, r: string, jokers: bool, k: nat) {
    && k < |l| && k < |r|
    && (forall i :: 0 <= i <= k ==> IsCard(l[i]) && IsCard(r[i]))
    && (forall i :: 0 <= i < k ==> Value(l[i], jokers) == Value(r[i], jokers))
    && Value(l[k], jokers) != Value(r[k], jokers)
  }

  /** The comparison by cards is defined: some card differs in value. */
  predicate Comparable(l: string, r: string, jokers: bool) {
    exists k: nat :: k < |l| && FirstDiff(l, r, jokers, k)
  }

  lemma FirstDiffUnique(l: string, r: string, jokers: bool, k: nat, k': nat)
    requires FirstDiff(l, r, jokers, k) && FirstDiff(l, r, jokers, k')
    ensures k == k'
  {
  }

  lemma FirstDiffTail(l: string, r: string, jokers: bool, k: nat)
    requires FirstDiff(l, r, jokers, k) && k > 0
    ensures FirstDiff(l[1..], r[1..], jokers, k - 1)
  {
  }

  /** Compares two card strings by the first position whose values differ;
      equal values everywhere would panic, hence the precondition. */
  function CmpFirstCard(l: string, r: string, jokers: bool): (o: Ordering)
    requires Comparable(l, r, jokers)
    ensures forall k: nat :: FirstDiff(l, r, jokers, k) ==>
      o == if Value(l[k], jokers) < Value(r[k], jokers) then Less else Greater
    decreases |l|
  {
    var k :| FirstDiff(l, r, jokers, k);
    if Value(l[0], jokers) != Value(r[0], jokers) then
      if Value(l[0], jokers) < Value(r[0], jokers) then Less else Greater
    else
      FirstDiffTail(l, r, jokers, k);
      var o := CmpFirstCard(l[1..], r[1..], jokers);
      assert forall k': nat :: FirstDiff(l, r, jokers, k') ==> k' == k;
      o
  }

  /** Two hands can be compared: different types, or a card that differs. */
  predicate HandsComparable(a: Hand, b: Hand, jokers: bool) {
    TypeOf(a.cards, jokers) != TypeOf(b.cards, jokers) || Comparable(a.cards, b.cards, jokers)
  }

  /** Hand order: the stronger type wins; on equal types the first card
      that differs decides. Part one (`Ord::cmp`) has `jokers` false,
      part two (`cmp_with_jokers`) true. */
  function Cmp(a: Hand, b: Hand, jokers: bool): (o: Ordering)
    requires HandsComparable(a, b, jokers)
    ensures o != Equal
    ensures Strength(TypeOf(a.cards, jokers)) < Strength(TypeOf(b.cards, jokers)) ==> o == Less
    ensures Strength(TypeOf(a.cards, jokers)) > Strength(TypeOf(b.cards, jokers)) ==> o == Greater
    ensures TypeOf(a.cards, jokers) == TypeOf(b.cards, jokers) ==>
      forall k: nat :: FirstDiff(a.cards, b.cards, jokers, k) ==>
        (o == Less <==> Value(a.cards[k], jokers) < Value(b.cards[k], jokers))
  {
    var ta := TypeOf(a.cards, jokers);
    var tb := TypeOf(b.cards, jokers);
    if Strength(ta) > Strength(tb) then Greater
    else if Strength(ta) < Strength(tb) then Less
    else
      HandTypeOrder(ta, tb);
      CmpFirstCard(a.cards, b.cards, jokers)
  }

  lemma FirstDiffSymmetric(l: string, r: string, jokers: bool, k: nat)
    requires FirstDiff(l, r, jokers, k)
    ensures FirstDiff(r, l, jokers, k)
  {
  }

  /** Swapping the hands swaps the answer. */
  lemma CmpAntisymmetric(a: Hand, b: Hand, jokers: bool)
    requires HandsComparable(a, b, jokers)
    ensures HandsComparable(b, a, jokers)
    ensures Cmp(a, b, jokers) == Less <==> Cmp(b, a, jokers) == Greater
  {
    if TypeOf(a.cards, jokers) == TypeOf(b.cards, jokers) {
      var k :| FirstDiff(a.cards, b.cards, jokers, k);
      FirstDiffSymmetric(a.cards, b.cards, jokers, k);
    }
  }

  /** If the first differences of a/b and of b/c are at i and j, then a and
      c first differ at the smaller of the two, and the order composes. */
  lemma FirstDiffTransitive(a: string, b: string, c: string, jokers: bool, i: nat, j: nat)
    requires FirstDiff(a, b, jokers, i) && FirstDiff(b, c, jokers, j)
    requires Value(a[i], jokers) < Value(b[i], jokers)
    requires Value(b[j], jokers) < Value(c[j], jokers)
    ensures i <= j ==> FirstDiff(a, c, jokers, i) && Value(a[i], jokers) < Value(c[i], jokers)
    ensures j < i ==> FirstDiff(a, c, jokers, j) && Value(a[j], jokers) < Value(c[j], jokers)
  {
  }

  /** The hand order is transitive. */
  lemma CmpTransitive(a: Hand, b: Hand, c: Hand, jokers: bool)
    requires HandsComparable(a, b, jokers) && HandsComparable(b, c, jokers)
    requires Cmp(a, b, jokers) == Less && Cmp(b, c, jokers) == Less
    ensures HandsComparable(a, c, jokers) && Cmp(a, c, jokers) == Less
  {
    var ta, tb, tc := TypeOf(a.cards, jokers), TypeOf(b.cards, jokers), TypeOf(c.cards, jokers);
    HandTypeOrder(ta, tb);
    HandTypeOrder(tb, tc);
    HandTypeOrder(ta, tc);
    if ta == tb && tb == tc {
      var i :| FirstDiff(a.cards, b.cards, jokers, i);
      var j :| FirstDiff(b.cards, c.cards, jokers, j);
      FirstDiffTransitive(a.cards, b.cards, c.cards, jokers, i, j);
      var k := if i <= j then i else j;
      assert FirstDiff(a.cards, c.cards, jokers, k);
    }
  }

  // ---------------------------------------------------------------------
  // Ranking the hands and scoring
  // ---------------------------------------------------------------------

  /** Any two hands at different positions can be compared. */
  predicate AllComparable(hs: seq<Hand>, jokers: bool) {
    forall i, j :: 0 <= i < |hs| && 0 <= j < |hs| && i != j ==> HandsComparable(hs[i], hs[j], jokers)
  }

  /** `a` ranks below `b`. */
  predicate Weaker(a: Hand, b: Hand, jokers: bool) {
    HandsComparable(a, b, jokers) && Cmp(a, b, jokers) == Less
  }

  /** Ranking hands is a strict order. */
  lemma WeakerIsStrictOrder(jokers: bool)
    ensures StrictOrder((a, b) => Weaker(a, b, jokers))
  {
    forall a, b | Weaker(a, b, jokers) ensures !Weaker(b, a, jokers) {
      CmpAntisymmetric(a, b, jokers);
    }
    forall a, b, c | Weaker(a, b, jokers) && Weaker(b, c, jokers) ensures Weaker(a, c, jokers) {
      CmpTransitive(a, b, c, jokers);
    }
  }

  /** Hands that can all be compared are ordered one way or the other. */
  lemma ComparableIsConnex(hs: seq<Hand>, jokers: bool)
    requires AllComparable(hs, jokers)
    ensures Connex(hs, (a, b) => Weaker(a, b, jokers))
  {
    forall i, j | 0 <= i < |hs| && 0 <= j < |hs| && i != j
      ensures Weaker(hs[i], hs[j], jokers) || Weaker(hs[j], hs[i], jokers)
    {
      CmpAntisymmetric(hs[i], hs[j], jokers);
    }
  }

  /** Sorts the hands weakest first. */
  function SortHands(hs: seq<Hand>, jokers: bool): (out: seq<Hand>)
    requires AllComparable(hs, jokers)
    ensures forall i :: 0 < i < |out| ==> Weaker(out[i - 1], out[i], jokers)
    ensures multiset(out) == multiset(hs)
  {
    ComparableIsConnex(hs, jokers);
    SortBy(hs, (a, b) => Weaker(a, b, jokers))
  }

  /** The bid of each hand times its rank, counting ranks from `rank`. */
  function WinningsFrom(ranked: seq<Hand>, rank: nat): (total: nat)
    ensures forall k :: 0 <= k < |ranked| ==> (rank + k) * ranked[k].points <= total
  {
    if |ranked| == 0 then 0
    else
      var rest := WinningsFrom(ranked[1..], rank + 1);
      assert forall k :: 1 <= k < |ranked| ==> (rank + k) * ranked[k].points <= rest by {
        forall k | 1 <= k < |ranked| ensures (rank + k) * ranked[k].points <= rest {
          assert ranked[k] == ranked[1..][k - 1];
        }
      }
      rank * ranked[0].points + rest
  }

  /** Total winnings: the weakest hand has rank 1. Part one has `jokers`
      false, part two true. */
  function Solution(hands: seq<Hand>, jokers: bool): (total: nat)
    requires AllComparable(hands, jokers)
    ensures forall h :: h in hands ==> h.points <= total
  {
    var ranked := SortHands(hands, jokers);
    assert forall h :: h in hands ==> h.points <= WinningsFrom(ranked, 1) by {
      forall h | h in hands ensures h.points <= WinningsFrom(ranked, 1) {
        assert h in multiset(ranked);
        var k :| 0 <= k < |ranked| && ranked[k] == h;
        RankedBidCounted(ranked, k);
      }
    }
    WinningsFrom(ranked, 1)
  }

  /** A hand ranked anywhere wins at least its bid. */
  lemma RankedBidCounted(ranked: seq<Hand>, k: nat)
    requires k < |ranked|
    ensures ranked[k].points <= WinningsFrom(ranked, 1)
  {
    assert (1 + k) * ranked[k].points == ranked[k].points + k * ranked[k].points;
  }

  /** The winnings do not depend on the order the hands are listed in,
      so any correct sorting algorithm gives the same total. */
  lemma SolutionOrderIndependent(hands: seq<Hand>, others: seq<Hand>, jokers: bool)
    requires AllComparable(hands, jokers) && AllComparable(others, jokers)
    requires multiset(hands) == multiset(others)
    ensures Solution(hands, jokers) == Solution(others, jokers)
  {
    WeakerIsStrictOrder(jokers);
    ComparableIsConnex(hands, jokers);
    ComparableIsConnex(others, jokers);
    AscendingUnique(SortHands(hands, jokers), SortHands(others, jokers), (a, b) => Weaker(a, b, jokers));
  }

  /** Ranks count from one: the winnings are the sum of rank times bid. */
  lemma {:induction false} WinningsAreRankTimesBid(ranked: seq<Hand>, rank: nat)
    ensures WinningsFrom(ranked, rank) == Sum(seq(|ranked|, i requires 0 <= i < |ranked| => (rank + i) * ranked[i].points))
  {
    var terms := seq(|ranked|, i requires 0 <= i < |ranked| => (rank + i) * ranked[i].points);
    if |ranked| > 0 {
      WinningsAreRankTimesBid(ranked[1..], rank + 1);
      var rest := seq(|ranked[1..]|, i requires 0 <= i < |ranked[1..]| => (rank + 1 + i) * ranked[1..][i].points);
      assert terms[1..] == rest;
    }
  }

  // ---------------------------------------------------------------------
  // Reading a hand
  // ---------------------------------------------------------------------

  /** A line is the cards and the bid, separated by white space; further
      words are ignored. None for a line with fewer than two words and for
      a bid that is not a number (the latter panics in the program). */
  function ParseHand(line: string): (h: Option<Hand>)
    ensures h.Some? ==> IsWord(h.value.cards)
  {
    var ws := Words(line);
    if |ws| < 2 then None
    else match ParseUnsigned(ws[1])
      case None => None
      case Some(points) => Some(Hand(ws[0], points))
  }

  /** Printing a hand and reading it back gives the hand. */
  lemma ParseHandRoundTrip(h: Hand)
    requires IsWord(h.cards)
    ensures ParseHand(h.cards + " " + Decimal(h.points)) == Some(h)
  {
    var ws := [h.cards, Decimal(h.points)];
    assert IsWord(Decimal(h.points));
    WordsUnwords(ws);
    assert Unwords(ws) == h.cards + " " + Decimal(h.points);
    ParseUnsignedDecimal(h.points);
  }

  // ---------------------------------------------------------------------
  // Examples
  // ---------------------------------------------------------------------

  /** No card twice. */
  predicate NoRepeats(s: string) {
    forall i, j :: 0 <= i < j < |s| ==> s[i] != s[j]
  }

  lemma {:induction false} CountNoRepeats(s: string, c: char)
    requires NoRepeats(s)
    ensures Count(s, c) <= 1
  {
    if |s| > 0 {
      CountNoRepeats(s[1..], c);
      if s[0] == c {
        CountBounds(s[1..], c);
      }
    }
  }

  /** Cards that are all different, none of them the wildcard, are a high
      card hand. */
  lemma DistinctCardsHighCard(cards: string, w: char)
    requires NoRepeats(cards) && w !in cards
    ensures TypWithWildcard(cards, w) == HighCard
  {
    DistinctGroupsHighCard(cards);
  }

  /** Cards that are all different form groups of one card each. */
  lemma DistinctGroupsHighCard(cards: string)
    requires NoRepeats(cards)
    ensures ClassifyGroups(Groups(cards), 0) == HighCard
  {
    GroupsSpec(cards);
    var largest, second := ClassifyGroupsTopTwo(Groups(cards), 0);
    if |Groups(cards)| > 0 {
      var i :| 0 <= i < |Groups(cards)| && Groups(cards)[i] == largest;
      CountNoRepeats(cards, Distinct(cards)[i]);
    }
  }

  /** Five jokers beat five different cards when J is wild. */
  lemma JokerSortingExample()
    ensures HandsComparable(Hand("JJJJJ", 287), Hand("Q385K", 7), true)
    ensures Cmp(Hand("JJJJJ", 287), Hand("Q385K", 7), true) == Greater
  {
    AllWildcardsFive("JJJJJ", 'J');
    DistinctCardsHighCard("Q385K", 'J');
  }

  // ---------------------------------------------------------------------
  // The sample hands
  // ---------------------------------------------------------------------

  /** One if `a` is `c`: a term of `Count`. */
  function Hit(a: char, c: char): nat {
    if a == c then 1 else 0
  }

  /** The count of a card in a five-card hand, position by position. */
  lemma CountFive(s: string, c: char)
    requires |s| == 5
    ensures Count(s, c) == Hit(s[0], c) + Hit(s[1], c) + Hit(s[2], c) + Hit(s[3], c) + Hit(s[4], c)
  {
    assert s[4..][1..] == [];
    assert Count(s[4..], c) == Hit(s[4], c);
    assert s[3..][1..] == s[4..];
    assert Count(s[3..], c) == Hit(s[3], c) + Count(s[4..], c);
    assert s[2..][1..] == s[3..];
    assert Count(s[2..], c) == Hit(s[2], c) + Count(s[3..], c);
    assert s[1..][1..] == s[2..];
    assert Count(s[1..], c) == Hit(s[1], c) + Count(s[2..], c);
  }

  /** A hand whose distinct cards `ds` occur `gs` times is classified from
      those group sizes. */
  lemma TypFromGroups(s: string, ds: string, gs: seq<nat>)
    requires '*' !in s && Distinct(s) == ds && |gs| == |ds|
    requires forall i :: 0 <= i < |ds| ==> Count(s, ds[i]) == gs[i]
    ensures Typ(s) == ClassifyGroups(gs, 0)
  {
    CountsOfSpec(s, ds);
    assert Groups(s) == gs;
  }

  /** The group sizes of a five-card hand, given its distinct cards. */
  lemma GroupsOfFive(s: string, ds: string, gs: seq<nat>)
    requires |s| == 5 && '*' !in s && Distinct(s) == ds && |gs| == |ds|
    requires forall i :: 0 <= i < |ds| ==>
      Hit(s[0], ds[i]) + Hit(s[1], ds[i]) + Hit(s[2], ds[i]) + Hit(s[3], ds[i]) + Hit(s[4], ds[i]) == gs[i]
    ensures Typ(s) == ClassifyGroups(gs, 0)
  {
    forall i | 0 <= i < |ds| ensures Count(s, ds[i]) == gs[i] {
      CountFive(s, ds[i]);
    }
    TypFromGroups(s, ds, gs);
  }

  /** The group sizes of the sample hands and their types. */
  lemma OnePairSizes()
    ensures ClassifyGroups([1, 1, 2, 1], 0) == OnePair
  {
    assert SortDescending([1]) == [1];
    assert SortDescending([2, 1]) == [2, 1];
    assert SortDescending([1, 2, 1]) == [2, 1, 1];
  }

  lemma TwoPairSizes()
    ensures ClassifyGroups([1, 2, 2], 0) == TwoPair
    ensures ClassifyGroups([2, 1, 2], 0) == TwoPair
  {
    assert SortDescending([2]) == [2];
    assert SortDescending([2, 2]) == [2, 2];
    assert SortDescending([1, 2]) == [2, 1];
  }

  lemma ThreeSizes()
    ensures ClassifyGroups([1, 1, 3], 0) == ThreeOfAKind
    ensures ClassifyGroups([3, 1, 1], 0) == ThreeOfAKind
  {
    assert SortDescending([3]) == [3];
    assert SortDescending([1, 3]) == [3, 1];
    assert SortDescending([1]) == [1];
    assert SortDescending([1, 1]) == [1, 1];
  }

  /** "32T3K": one pair of threes. */
  lemma Typ32T3K(s: string)
    requires s == "32T3K"
    ensures Typ(s) == OnePair
  {
    assert s[4..][1..] == [] && Distinct(s[4..]) == "K";
    assert s[3..][1..] == s[4..] && Distinct(s[3..]) == "3K";
    assert s[2..][1..] == s[3..] && Distinct(s[2..]) == "T3K";
    assert s[1..][1..] == s[2..] && Distinct(s[1..]) == "2T3K";
    GroupsOfFive(s, "2T3K", [1, 1, 2, 1]);
    OnePairSizes();
  }

  /** "KTJJT": two pairs. */
  lemma TypKTJJT(s: string)
    requires s == "KTJJT"
    ensures Typ(s) == TwoPair
  {
    assert s[4..][1..] == [] && Distinct(s[4..]) == "T";
    assert s[3..][1..] == s[4..] && Distinct(s[3..]) == "JT";
    assert s[2..][1..] == s[3..] && Distinct(s[2..]) == "JT";
    assert s[1..][1..] == s[2..] && Distinct(s[1..]) == "JT";
    GroupsOfFive(s, "KJT", [1, 2, 2]);
    TwoPairSizes();
  }

  /** "KK677": two pairs. */
  lemma TypKK677(s: string)
    requires s == "KK677"
    ensures Typ(s) == TwoPair
  {
    assert s[4..][1..] == [] && Distinct(s[4..]) == "7";
    assert s[3..][1..] == s[4..] && Distinct(s[3..]) == "7";
    assert s[2..][1..] == s[3..] && Distinct(s[2..]) == "67";
    assert s[1..][1..] == s[2..] && Distinct(s[1..]) == "K67";
    GroupsOfFive(s, "K67", [2, 1, 2]);
    TwoPairSizes();
  }

  /** "T55J5": three fives. */
  lemma TypT55J5(s: string)
    requires s == "T55J5"
    ensures Typ(s) == ThreeOfAKind
  {
    assert s[4..][1..] == [] && Distinct(s[4..]) == "5";
    assert s[3..][1..] == s[4..] && Distinct(s[3..]) == "J5";
    assert s[2..][1..] == s[3..] && Distinct(s[2..]) == "J5";
    assert s[1..][1..] == s[2..] && Distinct(s[1..]) == "J5";
    GroupsOfFive(s, "TJ5", [1, 1, 3]);
    ThreeSizes();
  }

  /** "QQQJA": three queens. */
  lemma TypQQQJA(s: string)
    requires s == "QQQJA"
    ensures Typ(s) == ThreeOfAKind
  {
    assert s[4..][1..] == [] && Distinct(s[4..]) == "A";
    assert s[3..][1..] == s[4..] && Distinct(s[3..]) == "JA";
    assert s[2..][1..] == s[3..] && Distinct(s[2..]) == "QJA";
    assert s[1..][1..] == s[2..] && Distinct(s[1..]) == "QJA";
    GroupsOfFive(s, "QJA", [3, 1, 1]);
    ThreeSizes();
  }

  /** The five sample hands, each weaker than the next, whatever their
      bids: two types apart, then equal types decided by the second card
      (T below K) and by the first card (T below Q). */
  lemma PairSortExample(h0: Hand, h1: Hand, h2: Hand, h3: Hand, h4: Hand)
    requires h0.cards == "32T3K" && h1.cards == "KTJJT" && h2.cards == "KK677"
    requires h3.cards == "T55J5" && h4.cards == "QQQJA"
    ensures Weaker(h0, h1, false) && Weaker(h1, h2, false)
    ensures Weaker(h2, h3, false) && Weaker(h3, h4, false)
  {
    Typ32T3K(h0.cards);
    TypKTJJT(h1.cards);
    TypKK677(h2.cards);
    TypT55J5(h3.cards);
    TypQQQJA(h4.cards);
    WeakerByType(h0, h1, false);
    SecondCardDecides(h1.cards, h2.cards);
    WeakerByCard(h1, h2, false, 1);
    WeakerByType(h2, h3, false);
    FirstCardDecides(h3.cards, h4.cards);
    WeakerByCard(h3, h4, false, 0);
  }

  /** "KTJJT" and "KK677" first differ in their second card, T below K. */
  lemma SecondCardDecides(l: string, r: string)
    requires l == "KTJJT" && r == "KK677"
    ensures FirstDiff(l, r, false, 1) && Value(l[1], false) < Value(r[1], false)
  {
    assert l[0] == 'K' && l[1] == 'T' && r[0] == 'K' && r[1] == 'K';
  }

  /** "T55J5" and "QQQJA" differ in their first card, T below Q. */
  lemma FirstCardDecides(l: string, r: string)
    requires l == "T55J5" && r == "QQQJA"
    ensures FirstDiff(l, r, false, 0) && Value(l[0], false) < Value(r[0], false)
  {
    assert l[0] == 'T' && r[0] == 'Q';
  }

  /** A hand of a weaker type is the weaker hand. */
  lemma WeakerByType(a: Hand, b: Hand, jokers: bool)
    requires Strength(TypeOf(a.cards, jokers)) < Strength(TypeOf(b.cards, jokers))
    ensures Weaker(a, b, jokers)
  {
  }

  /** Between hands of one type, the first differing card decides. */
  lemma WeakerByCard(a: Hand, b: Hand, jokers: bool, k: nat)
    requires TypeOf(a.cards, jokers) == TypeOf(b.cards, jokers)
    requires FirstDiff(a.cards, b.cards, jokers, k) && Value(a.cards[k], jokers) < Value(b.cards[k], jokers)
    ensures Weaker(a, b, jokers)
  {
  }

  /** Without jokers a card value names its card. */
  lemma CardValueInjective(a: char, b: char)
    requires IsCard(a) && IsCard(b) && CardValue(a) == CardValue(b)
    ensures a == b
  {
  }

  /** Without jokers, two different hands of equal length can be compared
      card by card: the first differing card differs in value. */
  lemma {:induction false} DifferentCardsComparable(l: string, r: string)
    requires |l| == |r| && AllCards(l) && AllCards(r) && l != r
    ensures Comparable(l, r, false)
  {
    if CardValue(l[0]) != CardValue(r[0]) {
      assert FirstDiff(l, r, false, 0);
    } else {
      CardValueInjective(l[0], r[0]);
      assert l == [l[0]] + l[1..] && r == [r[0]] + r[1..];
      DifferentCardsComparable(l[1..], r[1..]);
      var k: nat :| k < |l[1..]| && FirstDiff(l[1..], r[1..], false, k);
      assert forall i :: 0 < i <= k + 1 ==> l[i] == l[1..][i - 1] && r[i] == r[1..][i - 1];
      assert FirstDiff(l, r, false, k + 1);
    }
  }

  /** The sample's hands in the order they are listed. */
  const Sample: seq<Hand> :=
    [Hand("32T3K", 765), Hand("T55J5", 684), Hand("KK677", 28), Hand("KTJJT", 220), Hand("QQQJA", 483)]

  /** The sample's hands can all be compared: their cards differ. */
  lemma SampleComparable(hands: seq<Hand>)
    requires hands == Sample
    ensures AllComparable(hands, false)
  {
    forall i, j | 0 <= i < |hands| && 0 <= j < |hands| && i != j
      ensures HandsComparable(hands[i], hands[j], false)
    {
      DifferentCardsComparable(hands[i].cards, hands[j].cards);
    }
  }

  /** Sorting the sample ranks 32T3K, KTJJT, KK677, T55J5, QQQJA from the
      weakest up. */
  lemma SampleOrdering(hands: seq<Hand>)
    requires hands == Sample
    ensures AllComparable(hands, false)
    ensures SortHands(hands, false) == [hands[0], hands[3], hands[2], hands[1], hands[4]]
  {
    SampleComparable(hands);
    var ranked := [hands[0], hands[3], hands[2], hands[1], hands[4]];
    RankedSample(ranked);
    SwapSecondAndFourth(hands);
    SortHandsIsRanking(hands, ranked, false);
  }

  /** The sample's hands in the test's order ascend, whatever their bids. */
  lemma RankedSample(ranked: seq<Hand>)
    requires |ranked| == 5 && ranked[0].cards == "32T3K" && ranked[1].cards == "KTJJT"
    requires ranked[2].cards == "KK677" && ranked[3].cards == "T55J5" && ranked[4].cards == "QQQJA"
    ensures forall i :: 0 < i < |ranked| ==> Weaker(ranked[i - 1], ranked[i], false)
  {
    PairSortExample(ranked[0], ranked[1], ranked[2], ranked[3], ranked[4]);
  }

  lemma SwapSecondAndFourth<T>(s: seq<T>)
    requires |s| == 5
    ensures multiset([s[0], s[3], s[2], s[1], s[4]]) == multiset(s)
  {
    var t := [s[0], s[3], s[2], s[1], s[4]];
    assert s == [s[0]] + [s[1]] + [s[2]] + [s[3]] + [s[4]];
    assert t == [s[0]] + [s[3]] + [s[2]] + [s[1]] + [s[4]];
    assert multiset(s) == multiset{s[0]} + multiset{s[1]} + multiset{s[2]} + multiset{s[3]} + multiset{s[4]};
    assert multiset(t) == multiset{s[0]} + multiset{s[3]} + multiset{s[2]} + multiset{s[1]} + multiset{s[4]};
  }

  /** A ranking of the hands, weakest first, is what sorting returns. */
  lemma SortHandsIsRanking(hands: seq<Hand>, ranked: seq<Hand>, jokers: bool)
    requires AllComparable(hands, jokers) && multiset(ranked) == multiset(hands)
    requires forall i :: 0 < i < |ranked| ==> Weaker(ranked[i - 1], ranked[i], jokers)
    ensures SortHands(hands, jokers) == ranked
  {
    WeakerIsStrictOrder(jokers);
    AscendingUnique(SortHands(hands, jokers), ranked, (a, b) => Weaker(a, b, jokers));
  }

  /** The sample's total winnings are 6440. */
  lemma SampleWinnings(hands: seq<Hand>)
    requires hands == Sample
    ensures AllComparable(hands, false) && Solution(hands, false) == 6440
  {
    SampleOrdering(hands);
    var ranked := [hands[0], hands[3], hands[2], hands[1], hands[4]];
    assert ranked == [Hand("32T3K", 765), Hand("KTJJT", 220), Hand("KK677", 28), Hand("T55J5", 684), Hand("QQQJA", 483)];
    assert WinningsFrom(ranked, 1) == 6440;
  }
}
