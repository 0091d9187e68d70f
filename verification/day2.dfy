/**
 * Day 2: Cube Conundrum. A game line is "Game <id>: " followed by draws
 * separated by "; ", each draw being "<count> <colour>" items separated by
 * ", ". The parsers follow the combinators they are built from: each
 * consumes a prefix and hands back the rest of the input, and a list stops
 * (without failing) before a separator that is not followed by an element.
 */
module Day2 {
  import opened Common
  import opened Nom

  datatype Colour = Red | Green | Blue

  /** Cubes of each colour shown in one draw. */
  datatype Draw = Draw(r: nat, g: nat, b: nat)

  datatype Game = Game(id: nat, draws: seq<Draw>)

  /** One "<count> <colour>" item. */
  datatype Item = Item(count: nat, colour: Colour)

  function ColourName(c: Colour): string {
    match c
    case Red => "red"
    case Green => "green"
    case Blue => "blue"
  }

  /** The colour names are tried in the order blue, red, green; each is a
      prefix match, so "reddish" reads as red leaving "dish". */
  function ColourOf(s: string): Parsed<Colour> {
    if "blue" <= s then Ok(Blue, s[4..])
    else if "red" <= s then Ok(Red, s[3..])
    else if "green" <= s then Ok(Green, s[5..])
    else Fail
  }

  /** "<count><blanks><colour>". */
  function ParseItem(s: string): (p: Parsed<Item>)
    ensures p.Ok? ==> |p.rest| < |s|
  {
    match Digit1(s)
    case Fail => Fail
    case Ok(count, s1) =>
      match Space1(s1)
      case None => Fail
      case Some(s2) =>
        match ColourOf(s2)
        case Fail => Fail
        case Ok(colour, s3) => Ok(Item(count, colour), s3)
  }

  // ---------------------------------------------------------------------
  // Draws
  // ---------------------------------------------------------------------

  /** The loop of a separated list of items after the first: stop before a
      separator that is missing or not followed by an item. */
  function ItemsAfter(s: string, acc: seq<Item>): (p: Parsed<seq<Item>>)
    ensures p.Ok? && |p.value| >= |acc|
    decreases |s|
  {
    match Separator(',', s)
    case None => Ok(acc, s)
    case Some(s1) =>
      match ParseItem(s1)
      case Fail => Ok(acc, s)
      case Ok(item, s2) => ItemsAfter(s2, acc + [item])
  }

  /** One or more items separated by ",<blanks>". */
  function ParseItems(s: string): (p: Parsed<seq<Item>>)
    ensures p.Ok? ==> |p.value| >= 1
  {
    match ParseItem(s)
    case Fail => Fail
    case Ok(item, s1) => ItemsAfter(s1, [item])
  }

  /** Folds the items left to right from an empty draw: each item sets its
      colour's count, so a later item of a colour overrides an earlier one
      and a colour never named stays 0. */
  function Tally(items: seq<Item>): (d: Draw)
    ensures d.r != 0 ==> Item(d.r, Red) in items
    ensures d.g != 0 ==> Item(d.g, Green) in items
    ensures d.b != 0 ==> Item(d.b, Blue) in items
    decreases |items|
  {
    if |items| == 0 then Draw(0, 0, 0)
    else
      var d := Tally(items[..|items| - 1]);
      var last := items[|items| - 1];
      match last.colour
      case Red => Draw(last.count, d.g, d.b)
      case Green => Draw(d.r, last.count, d.b)
      case Blue => Draw(d.r, d.g, last.count)
  }

  /** The count of the last item of colour `c`, searching from the right;
      0 if there is none. */
  function LastCount(items: seq<Item>, c: Colour): nat
    decreases |items|
  {
    if |items| == 0 then 0
    else if items[|items| - 1].colour == c then items[|items| - 1].count
    else LastCount(items[..|items| - 1], c)
  }

  /** The count of colour `c` in a draw. */
  function Component(d: Draw, c: Colour): nat {
    match c
    case Red => d.r
    case Green => d.g
    case Blue => d.b
  }

  /** Each colour of the tally is the count of the last item naming it. */
  lemma {:induction false} TallyIsLastCount(items: seq<Item>, c: Colour)
    ensures Component(Tally(items), c) == LastCount(items, c)
    decreases |items|
  {
    if |items| > 0 {
      TallyIsLastCount(items[..|items| - 1], c);
    }
  }

  /** A draw: items folded into counts. */
  function ParseDraw(s: string): (p: Parsed<Draw>)
    ensures p.Ok? <==> ParseItems(s).Ok?
    ensures p.Ok? ==> p.value == Tally(ParseItems(s).value) && p.rest == ParseItems(s).rest
  {
    match ParseItems(s)
    case Fail => Fail
    case Ok(items, rest) => Ok(Tally(items), rest)
  }

  // ---------------------------------------------------------------------
  // Games
  // ---------------------------------------------------------------------

  function DrawsAfter(s: string, acc: seq<Draw>): (p: Parsed<seq<Draw>>)
    ensures p.Ok? && |p.value| >= |acc|
    decreases |s|
  {
    match Separator(';', s)
    case None => Ok(acc, s)
    case Some(s1) =>
      match ParseDraw(s1)
      case Fail => Ok(acc, s)
      case Ok(d, s2) =>
        ParseDrawShrinks(s1);
        DrawsAfter(s2, acc + [d])
  }

  lemma ParseDrawShrinks(s: string)
    requires ParseDraw(s).Ok?
    ensures |ParseDraw(s).rest| < |s|
  {
    var item := ParseItem(s);
    ItemsAfterShrinks(item.rest, [item.value]);
  }

  lemma {:induction false} ItemsAfterShrinks(s: string, acc: seq<Item>)
    ensures |ItemsAfter(s, acc).rest| <= |s|
    decreases |s|
  {
    match Separator(',', s)
    case None =>
    case Some(s1) =>
      match ParseItem(s1)
      case Fail =>
      case Ok(item, s2) => ItemsAfterShrinks(s2, acc + [item]);
  }

  /** One or more draws separated by ";<blanks>". */
  function ParseDraws(s: string): (p: Parsed<seq<Draw>>)
    ensures p.Ok? ==> |p.value| >= 1
  {
    match ParseDraw(s)
    case Fail => Fail
    case Ok(d, s1) => DrawsAfter(s1, [d])
  }

  /** "Game<blanks><id>:<blanks><draws>"; whatever follows the draws is
      handed back unread. */
  function ParseGame(s: string): (p: Parsed<Game>)
    ensures p.Ok? ==> |p.value.draws| >= 1
  {
    match Tag("Game", s)
    case None => Fail
    case Some(s1) =>
      match Space1(s1)
      case None => Fail
      case Some(s2) =>
        match Digit1(s2)
        case Fail => Fail
        case Ok(id, s3) => ParseGameDraws(id, s3)
  }

  /** The part of a game line after its id: ":<blanks><draws>". */
  function ParseGameDraws(id: nat, s: string): (p: Parsed<Game>)
    ensures p.Ok? ==> p.value.id == id && |p.value.draws| >= 1
  {
    match Tag(":", s)
    case None => Fail
    case Some(s1) =>
      match Space1(s1)
      case None => Fail
      case Some(s2) =>
        match ParseDraws(s2)
        case Fail => Fail
        case Ok(draws, rest) => Ok(Game(id, draws), rest)
  }

  // ---------------------------------------------------------------------
  // The two answers
  // ---------------------------------------------------------------------

  /** Every line must parse as a game (anything after its draws is
      ignored); one line that does not makes the whole input fail. */
  function ParseGames(lines: seq<string>): (r: Option<seq<Game>>)
    ensures r.Some? <==> forall k :: 0 <= k < |lines| ==> ParseGame(lines[k]).Ok?
    ensures r.Some? ==> |r.value| == |lines|
    ensures r.Some? ==> forall k :: 0 <= k < |lines| ==> ParseGame(lines[k]).Ok? && ParseGame(lines[k]).value == r.value[k]
  {
    var ps := seq(|lines|, k requires 0 <= k < |lines| => ParseGame(lines[k]));
    assert forall k :: 0 <= k < |lines| ==> ps[k] == ParseGame(lines[k]);
    Collect(ps)
  }

  /** The bag of part one: 12 red, 13 green and 14 blue cubes. */
  const Bag: Draw := Draw(12, 13, 14)

  /** `d` shows no more cubes of any colour than `bag` holds. */
  predicate Fits(d: Draw, bag: Draw) {
    d.r <= bag.r && d.g <= bag.g && d.b <= bag.b
  }

  /** No draw of a possible game shows more cubes than the bag holds. */
  predicate Possible(g: Game, bag: Draw): (ok: bool)
    ensures ok ==> forall k :: 0 <= k < |g.draws| ==> Cubes(g.draws[k]) <= Cubes(bag)
  {
    forall k :: 0 <= k < |g.draws| ==> Fits(g.draws[k], bag)
  }

  /** The number of cubes a draw shows. */
  function Cubes(d: Draw): nat {
    d.r + d.g + d.b
  }

  /** Sum of the ids of the games possible with `bag`: every possible
      game's id is part of it. */
  function PossibleIdSum(games: seq<Game>, bag: Draw): (total: nat)
    ensures forall k :: 0 <= k < |games| && Possible(games[k], bag) ==> games[k].id <= total
  {
    if |games| == 0 then 0
    else (if Possible(games[0], bag) then games[0].id else 0) + PossibleIdSum(games[1..], bag)
  }

  function Max(a: nat, b: nat): nat {
    if a >= b then a else b
  }

  /** The largest count of each colour over the draws. */
  function MaxDraw(draws: seq<Draw>): (m: Draw)
    requires |draws| > 0
    ensures forall k :: 0 <= k < |draws| ==> Fits(draws[k], m)
    ensures exists k :: 0 <= k < |draws| && draws[k].r == m.r
    ensures exists k :: 0 <= k < |draws| && draws[k].g == m.g
    ensures exists k :: 0 <= k < |draws| && draws[k].b == m.b
  {
    if |draws| == 1 then draws[0]
    else
      var m := MaxDraw(draws[1..]);
      Draw(Max(draws[0].r, m.r), Max(draws[0].g, m.g), Max(draws[0].b, m.b))
  }

  /** The fewest cubes that make the game possible: a game is possible with
      a bag exactly when the bag holds at least the per-colour maxima. */
  lemma PossibleIffMaxFits(g: Game, bag: Draw)
    requires |g.draws| > 0
    ensures Possible(g, bag) <==> Fits(MaxDraw(g.draws), bag)
  {
    var m := MaxDraw(g.draws);
    if Possible(g, bag) {
      var i :| 0 <= i < |g.draws| && g.draws[i].r == m.r;
      var j :| 0 <= j < |g.draws| && g.draws[j].g == m.g;
      var k :| 0 <= k < |g.draws| && g.draws[k].b == m.b;
      assert Fits(g.draws[i], bag) && Fits(g.draws[j], bag) && Fits(g.draws[k], bag);
    }
  }

  /** The power of a game: the product of the per-colour maxima. */
  function Power(g: Game): (p: nat)
    requires |g.draws| > 0
    ensures forall k :: 0 <= k < |g.draws| ==> Volume(g.draws[k]) <= p
  {
    var m := MaxDraw(g.draws);
    assert forall k :: 0 <= k < |g.draws| ==> Volume(g.draws[k]) <= Volume(m) by {
      forall k | 0 <= k < |g.draws| ensures Volume(g.draws[k]) <= Volume(m) {
        VolumeMonotone(g.draws[k], m);
      }
    }
    Volume(m)
  }

  /** The summed powers: every game's power is part of it. */
  function PowerSum(games: seq<Game>): (total: nat)
    requires forall k :: 0 <= k < |games| ==> |games[k].draws| > 0
    ensures forall k :: 0 <= k < |games| ==> Power(games[k]) <= total
  {
    if |games| == 0 then 0 else Power(games[0]) + PowerSum(games[1..])
  }

  /** A game's power is the volume of the smallest bag that makes it
      possible: any bag making it possible holds at least that much. */
  lemma PowerIsLeast(g: Game, bag: Draw)
    requires |g.draws| > 0 && Possible(g, bag)
    ensures Power(g) <= Volume(bag)
  {
    PossibleIffMaxFits(g, bag);
    VolumeMonotone(MaxDraw(g.draws), bag);
  }

  /** The number of cubes a bag of these counts could show at once. */
  function Volume(d: Draw): nat {
    d.r * d.g * d.b
  }

  lemma VolumeMonotone(d: Draw, bag: Draw)
    requires Fits(d, bag)
    ensures Volume(d) <= Volume(bag)
  {
    MulMonotone(d.r, bag.r, d.g, bag.g);
    MulMonotone(d.r * d.g, bag.r * bag.g, d.b, bag.b);
  }

  lemma MulMonotone(a: nat, b: nat, c: nat, d: nat)
    requires a <= b && c <= d
    ensures a * c <= b * d
  {
    MulLeft(a, b, c);
    MulLeft(c, d, b);
  }

  lemma MulLeft(a: nat, b: nat, c: nat)
    requires a <= b
    ensures a * c <= b * c
  {
  }

  /** Adding games adds their contributions. */
  lemma {:induction false} PossibleIdSumAppend(a: seq<Game>, b: seq<Game>, bag: Draw)
    ensures PossibleIdSum(a + b, bag) == PossibleIdSum(a, bag) + PossibleIdSum(b, bag)
  {
    if |a| > 0 {
      assert (a + b)[1..] == a[1..] + b;
      PossibleIdSumAppend(a[1..], b, bag);
    } else {
      assert a + b == b;
    }
  }

  // ---------------------------------------------------------------------
  // Printing a game and reading it back
  // ---------------------------------------------------------------------

  /** An item printed in front of `tail`: the count, one space, the colour. */
  function RenderItemOnto(it: Item, tail: string): string {
    Decimal(it.count) + ([' '] + (ColourName(it.colour) + tail))
  }

  /** Items joined by ", ", printed in front of `tail`. */
  function RenderItemsOnto(items: seq<Item>, tail: string): string
    requires |items| > 0
    decreases |items|
  {
    RenderItemOnto(items[0], if |items| == 1 then tail else ", " + RenderItemsOnto(items[1..], tail))
  }

  predicate AllNonEmpty(draws: seq<seq<Item>>) {
    forall k :: 0 <= k < |draws| ==> |draws[k]| > 0
  }

  /** Draws, each a list of items, joined by "; ", printed in front of `tail`. */
  function RenderDrawsOnto(draws: seq<seq<Item>>, tail: string): string
    requires |draws| > 0 && AllNonEmpty(draws)
    decreases |draws|
  {
    RenderItemsOnto(draws[0], if |draws| == 1 then tail else "; " + RenderDrawsOnto(draws[1..], tail))
  }

  /** A game line "Game <id>: <draws>" printed in front of `tail`. */
  function RenderGameOnto(id: nat, draws: seq<seq<Item>>, tail: string): string
    requires |draws| > 0 && AllNonEmpty(draws)
  {
    "Game" + ([' '] + (Decimal(id) + (":" + ([' '] + RenderDrawsOnto(draws, tail)))))
  }

  function RenderGame(id: nat, draws: seq<seq<Item>>): string
    requires |draws| > 0 && AllNonEmpty(draws)
  {
    RenderGameOnto(id, draws, "")
  }

  function Tallies(draws: seq<seq<Item>>): (ds: seq<Draw>)
    ensures |ds| == |draws|
    ensures forall k :: 0 <= k < |draws| ==> ds[k] == Tally(draws[k])
  {
    if |draws| == 0 then [] else [Tally(draws[0])] + Tallies(draws[1..])
  }

  lemma ColourRoundTrip(c: Colour, tail: string)
    ensures ColourOf(ColourName(c) + tail) == Ok(c, tail)
  {
    var s := ColourName(c) + tail;
    assert s[|ColourName(c)|..] == tail;
    match c
    case Red => assert s[0] == 'r';
    case Green => assert s[0] == 'g';
    case Blue =>
  }

  lemma ItemRoundTrip(it: Item, tail: string)
    ensures ParseItem(RenderItemOnto(it, tail)) == Ok(it, tail)
  {
    var name := ColourName(it.colour) + tail;
    Digit1Decimal(it.count, [' '] + name);
    assert name[0] == ColourName(it.colour)[0];
    Space1One(name);
    ColourRoundTrip(it.colour, tail);
  }

  /** The rendering of items begins with a digit. */
  lemma RenderItemsLead(items: seq<Item>, tail: string)
    requires |items| > 0
    ensures |RenderItemsOnto(items, tail)| > 0 && IsDigit(RenderItemsOnto(items, tail)[0])
  {
    var more := if |items| == 1 then tail else ", " + RenderItemsOnto(items[1..], tail);
    LeadOfAppend(Decimal(items[0].count), [' '] + (ColourName(items[0].colour) + more));
  }

  lemma ItemsAfterStep(s: string, acc: seq<Item>, body: string, item: Item, rest: string)
    requires Separator(',', s) == Some(body) && ParseItem(body) == Ok(item, rest)
    ensures ItemsAfter(s, acc) == ItemsAfter(rest, acc + [item])
  {
  }

  lemma ItemsAfterStops(tail: string, acc: seq<Item>)
    requires NotLed(tail, ',')
    ensures ItemsAfter(tail, acc) == Ok(acc, tail)
  {
  }

  /** The items after the first one, still to be read. */
  lemma {:induction false} ItemsAfterRoundTrip(items: seq<Item>, tail: string, acc: seq<Item>)
    requires |items| > 0 && NotLed(tail, ',')
    ensures ItemsAfter(", " + RenderItemsOnto(items, tail), acc) == Ok(acc + items, tail)
    decreases |items|
  {
    var body := RenderItemsOnto(items, tail);
    var more := if |items| == 1 then tail else ", " + RenderItemsOnto(items[1..], tail);
    RenderItemsLead(items, tail);
    SeparatorBeforeDigit(',', body);
    ItemRoundTrip(items[0], more);
    ItemsAfterStep(", " + body, acc, body, items[0], more);
    if |items| == 1 {
      ItemsAfterStops(tail, acc + [items[0]]);
      assert [items[0]] == items;
    } else {
      ItemsAfterRoundTrip(items[1..], tail, acc + [items[0]]);
      AppendHead(acc, items);
    }
  }

  lemma ItemsStep(s: string, item: Item, rest: string)
    requires ParseItem(s) == Ok(item, rest)
    ensures ParseItems(s) == ItemsAfter(rest, [item])
  {
  }

  /** Items printed with ", " between them read back as the same items,
      stopping before anything that does not start with a comma. */
  lemma ItemsRoundTrip(items: seq<Item>, tail: string)
    requires |items| > 0 && NotLed(tail, ',')
    ensures ParseItems(RenderItemsOnto(items, tail)) == Ok(items, tail)
  {
    var more := if |items| == 1 then tail else ", " + RenderItemsOnto(items[1..], tail);
    ItemRoundTrip(items[0], more);
    ItemsStep(RenderItemsOnto(items, tail), items[0], more);
    if |items| == 1 {
      ItemsAfterStops(tail, items);
      assert [items[0]] == items;
    } else {
      ItemsAfterRoundTrip(items[1..], tail, [items[0]]);
      ConsTail(items);
    }
  }

  lemma DrawRoundTrip(items: seq<Item>, tail: string)
    requires |items| > 0 && NotLed(tail, ',')
    ensures ParseDraw(RenderItemsOnto(items, tail)) == Ok(Tally(items), tail)
  {
    ItemsRoundTrip(items, tail);
  }

  lemma DrawsAfterStep(s: string, acc: seq<Draw>, body: string, d: Draw, rest: string)
    requires Separator(';', s) == Some(body) && ParseDraw(body) == Ok(d, rest)
    ensures DrawsAfter(s, acc) == DrawsAfter(rest, acc + [d])
  {
  }

  lemma DrawsAfterStops(tail: string, acc: seq<Draw>)
    requires NotLed(tail, ';')
    ensures DrawsAfter(tail, acc) == Ok(acc, tail)
  {
  }

  lemma {:induction false} DrawsAfterRoundTrip(draws: seq<seq<Item>>, tail: string, acc: seq<Draw>)
    requires |draws| > 0 && AllNonEmpty(draws) && NotLed(tail, ';') && NotLed(tail, ',')
    ensures DrawsAfter("; " + RenderDrawsOnto(draws, tail), acc) == Ok(acc + Tallies(draws), tail)
    decreases |draws|
  {
    var body := RenderDrawsOnto(draws, tail);
    var more := if |draws| == 1 then tail else "; " + RenderDrawsOnto(draws[1..], tail);
    RenderItemsLead(draws[0], more);
    SeparatorBeforeDigit(';', body);
    DrawRoundTrip(draws[0], more);
    DrawsAfterStep("; " + body, acc, body, Tally(draws[0]), more);
    if |draws| == 1 {
      DrawsAfterStops(tail, acc + [Tally(draws[0])]);
      assert Tallies(draws) == [Tally(draws[0])];
    } else {
      DrawsAfterRoundTrip(draws[1..], tail, acc + [Tally(draws[0])]);
      assert Tallies(draws) == [Tally(draws[0])] + Tallies(draws[1..]);
      AppendHead(acc, Tallies(draws));
    }
  }

  lemma DrawsRoundTrip(draws: seq<seq<Item>>, tail: string)
    requires |draws| > 0 && AllNonEmpty(draws) && NotLed(tail, ';') && NotLed(tail, ',')
    ensures ParseDraws(RenderDrawsOnto(draws, tail)) == Ok(Tallies(draws), tail)
  {
    var more := if |draws| == 1 then tail else "; " + RenderDrawsOnto(draws[1..], tail);
    DrawRoundTrip(draws[0], more);
    if |draws| == 1 {
      DrawsAfterStops(tail, [Tally(draws[0])]);
      assert Tallies(draws) == [Tally(draws[0])];
    } else {
      DrawsAfterRoundTrip(draws[1..], tail, [Tally(draws[0])]);
      assert [Tally(draws[0])] + Tallies(draws[1..]) == Tallies(draws);
    }
  }

  lemma GameStep(s: string, num: string, id: nat, afterId: string)
    requires Tag("Game", s) == Some([' '] + num)
    requires Space1([' '] + num) == Some(num)
    requires Digit1(num) == Ok(id, afterId)
    ensures ParseGame(s) == ParseGameDraws(id, afterId)
  {
  }

  lemma GameDrawsStep(id: nat, s: string, body: string)
    requires s == ":" + ([' '] + body)
    requires Space1([' '] + body) == Some(body)
    requires ParseDraws(body).Ok?
    ensures ParseGameDraws(id, s) == Ok(Game(id, ParseDraws(body).value), ParseDraws(body).rest)
  {
    TagAppend(":", [' '] + body);
  }

  /** The header "Game <id>" is read up to the colon. */
  lemma GameHeadRoundTrip(id: nat, rest: string)
    requires |rest| > 0 && rest[0] == ':'
    ensures ParseGame("Game" + ([' '] + (Decimal(id) + rest))) == ParseGameDraws(id, rest)
  {
    var num := Decimal(id) + rest;
    TagAppend("Game", [' '] + num);
    LeadOfAppend(Decimal(id), rest);
    Space1One(num);
    Digit1Decimal(id, rest);
    GameStep("Game" + ([' '] + num), num, id, rest);
  }

  lemma GameDrawsRoundTrip(id: nat, draws: seq<seq<Item>>, tail: string)
    requires |draws| > 0 && AllNonEmpty(draws) && NotLed(tail, ';') && NotLed(tail, ',')
    ensures ParseGameDraws(id, ":" + ([' '] + RenderDrawsOnto(draws, tail))) == Ok(Game(id, Tallies(draws)), tail)
  {
    var body := RenderDrawsOnto(draws, tail);
    var more := if |draws| == 1 then tail else "; " + RenderDrawsOnto(draws[1..], tail);
    RenderItemsLead(draws[0], more);
    Space1One(body);
    DrawsRoundTrip(draws, tail);
    GameDrawsStep(id, ":" + ([' '] + body), body);
  }

  /** A printed game line reads back as its id and the tallies of its
      draws, leaving whatever followed it. */
  lemma GameRoundTrip(id: nat, draws: seq<seq<Item>>, tail: string)
    requires |draws| > 0 && AllNonEmpty(draws) && NotLed(tail, ';') && NotLed(tail, ',')
    ensures ParseGame(RenderGameOnto(id, draws, tail)) == Ok(Game(id, Tallies(draws)), tail)
  {
    GameHeadRoundTrip(id, ":" + ([' '] + RenderDrawsOnto(draws, tail)));
    GameDrawsRoundTrip(id, draws, tail);
  }

  /** Each colour named once, in the order red, green, blue. */
  function DrawItems(d: Draw): (items: seq<Item>)
    ensures Tally(items) == d
  {
    var items := [Item(d.r, Red), Item(d.g, Green), Item(d.b, Blue)];
    assert items[..2][..1][..0] == [];
    assert Tally(items[..2][..1]) == Draw(d.r, 0, 0);
    assert Tally(items[..2]) == Draw(d.r, d.g, 0);
    items
  }

  function ItemsOfDraws(ds: seq<Draw>): (draws: seq<seq<Item>>)
    ensures |draws| == |ds| && AllNonEmpty(draws)
    ensures Tallies(draws) == ds
  {
    if |ds| == 0 then [] else [DrawItems(ds[0])] + ItemsOfDraws(ds[1..])
  }

  /** The printed form of a game: every draw names all three colours. */
  function ShowGame(g: Game): string
    requires |g.draws| > 0
  {
    RenderGame(g.id, ItemsOfDraws(g.draws))
  }

  /** Every game with at least one draw reads back from its printed form. */
  lemma ParseShowGame(g: Game)
    requires |g.draws| > 0
    ensures ParseGame(ShowGame(g)) == Ok(g, "")
  {
    GameRoundTrip(g.id, ItemsOfDraws(g.draws), "");
  }

  // ---------------------------------------------------------------------
  // The examples
  // ---------------------------------------------------------------------

  /** Colours may come in any order and some may be missing. */
  lemma DrawExample(s: string)
    requires s == "3 blue, 4 red"
    ensures ParseDraw(s) == Ok(Draw(4, 0, 3), "")
  {
    var items := [Item(3, Blue), Item(4, Red)];
    ExampleDraw1(items, "");
    assert RenderItemsOnto(items, "") == s;
    ExampleTally1(items);
    DrawRoundTrip(items, "");
  }

  /** The game line of the parser's test, written piece by piece:
      "Game 17: 3 blue, 4 red; 1 red, 2 green, 6 blue; 2 green". */
  lemma GameExample(s: string)
    requires s == "Game 17: " + ("3 blue, 4 red" + ("; " + ("1 red, 2 green, 6 blue" + ("; " + "2 green"))))
    ensures ParseGame(s) == Ok(Game(17, [Draw(4, 0, 3), Draw(1, 2, 6), Draw(0, 2, 0)]), "")
  {
    var d1 := [Item(3, Blue), Item(4, Red)];
    var d2 := [Item(1, Red), Item(2, Green), Item(6, Blue)];
    var d3 := [Item(2, Green)];
    var draws := [d1, d2, d3];
    ExampleRenderGame(draws, s);
    GameRoundTrip(17, draws, "");
    ExampleTallies(draws);
  }

  /** The example game fits the bag of 12 red, 13 green and 14 blue cubes,
      so it adds its id; its power is 4 * 2 * 6. */
  lemma GameExampleScores(g: Game)
    requires g == Game(17, [Draw(4, 0, 3), Draw(1, 2, 6), Draw(0, 2, 0)])
    ensures Possible(g, Bag) && PossibleIdSum([g], Bag) == 17
    ensures Power(g) == 48
  {
    var m := MaxDraw(g.draws);
    assert m == Draw(4, 2, 6);
  }

  lemma ExampleTallies(draws: seq<seq<Item>>)
    requires draws == [[Item(3, Blue), Item(4, Red)], [Item(1, Red), Item(2, Green), Item(6, Blue)], [Item(2, Green)]]
    ensures Tallies(draws) == [Draw(4, 0, 3), Draw(1, 2, 6), Draw(0, 2, 0)]
  {
    ExampleTally1(draws[0]);
    ExampleTally2(draws[1]);
    ExampleTally3(draws[2]);
  }

  lemma ExampleRenderGame(draws: seq<seq<Item>>, s: string)
    requires draws == [[Item(3, Blue), Item(4, Red)], [Item(1, Red), Item(2, Green), Item(6, Blue)], [Item(2, Green)]]
    requires s == "Game 17: " + ("3 blue, 4 red" + ("; " + ("1 red, 2 green, 6 blue" + ("; " + "2 green"))))
    ensures RenderGameOnto(17, draws, "") == s
  {
    var t3 := "2 green";
    var t2 := "1 red, 2 green, 6 blue" + ("; " + t3);
    var t1 := "3 blue, 4 red" + ("; " + t2);
    assert draws[1..] == [draws[1], draws[2]] && draws[1..][1..] == [draws[2]];
    ExampleDraw3(draws[2], "");
    assert RenderDrawsOnto(draws[1..][1..], "") == t3;
    ExampleDraw2(draws[1], "; " + t3);
    assert RenderDrawsOnto(draws[1..], "") == t2;
    ExampleDraw1(draws[0], "; " + t2);
    assert RenderDrawsOnto(draws, "") == t1;
    assert Decimal(17) == "17";
    ExampleGameText(t1, s);
  }

  lemma ExampleGameText(t: string, s: string)
    requires s == "Game 17: " + t
    ensures "Game" + ([' '] + ("17" + (":" + ([' '] + t)))) == s
  {
  }

  lemma ExampleDraw1(d1: seq<Item>, tail: string)
    requires d1 == [Item(3, Blue), Item(4, Red)]
    ensures RenderItemsOnto(d1, tail) == "3 blue, 4 red" + tail
  {
    ExampleItem(4, Red, "4 red", tail);
    assert d1[1..] == [Item(4, Red)];
    ExampleItem(3, Blue, "3 blue", ", " + ("4 red" + tail));
  }

  lemma ExampleDraw2(d2: seq<Item>, tail: string)
    requires d2 == [Item(1, Red), Item(2, Green), Item(6, Blue)]
    ensures RenderItemsOnto(d2, tail) == "1 red, 2 green, 6 blue" + tail
  {
    assert d2[1..] == [Item(2, Green), Item(6, Blue)] && d2[1..][1..] == [Item(6, Blue)];
    ExampleItem(6, Blue, "6 blue", tail);
    assert RenderItemsOnto(d2[1..][1..], tail) == "6 blue" + tail;
    ExampleItem(2, Green, "2 green", ", " + ("6 blue" + tail));
    assert RenderItemsOnto(d2[1..], tail) == "2 green" + (", " + ("6 blue" + tail));
    ExampleItem(1, Red, "1 red", ", " + ("2 green" + (", " + ("6 blue" + tail))));
    ExampleText2(tail);
  }

  lemma ExampleText2(tail: string)
    ensures "1 red" + (", " + ("2 green" + (", " + ("6 blue" + tail)))) == "1 red, 2 green, 6 blue" + tail
  {
    assert "1 red" + ", " + "2 green" + ", " + "6 blue" == "1 red, 2 green, 6 blue";
  }

  lemma ExampleDraw3(d3: seq<Item>, tail: string)
    requires d3 == [Item(2, Green)]
    ensures RenderItemsOnto(d3, tail) == "2 green" + tail
  {
    ExampleItem(2, Green, "2 green", tail);
  }

  lemma ExampleItem(n: nat, c: Colour, text: string, tail: string)
    requires n < 10 && text == [DigitChar(n), ' '] + ColourName(c)
    ensures RenderItemOnto(Item(n, c), tail) == text + tail
  {
    assert Decimal(n) == [DigitChar(n)];
  }

  lemma ExampleTally1(d1: seq<Item>)
    requires d1 == [Item(3, Blue), Item(4, Red)]
    ensures Tally(d1) == Draw(4, 0, 3)
  {
    TallyStep(d1[..1], Item(4, Red));
    assert d1[..1] + [Item(4, Red)] == d1;
  }

  lemma ExampleTally2(d2: seq<Item>)
    requires d2 == [Item(1, Red), Item(2, Green), Item(6, Blue)]
    ensures Tally(d2) == Draw(1, 2, 6)
  {
    TallyStep(d2[..1], Item(2, Green));
    TallyStep(d2[..2], Item(6, Blue));
    assert d2[..1] + [Item(2, Green)] == d2[..2] && d2[..2] + [Item(6, Blue)] == d2;
  }

  lemma ExampleTally3(d3: seq<Item>)
    requires d3 == [Item(2, Green)]
    ensures Tally(d3) == Draw(0, 2, 0)
  {
    TallyStep([], Item(2, Green));
    assert [] + [Item(2, Green)] == d3;
  }

  lemma TallyStep(items: seq<Item>, item: Item)
    ensures Tally(items + [item]) == match item.colour
      case Red => Draw(item.count, Tally(items).g, Tally(items).b)
      case Green => Draw(Tally(items).r, item.count, Tally(items).b)
      case Blue => Draw(Tally(items).r, Tally(items).g, item.count)
  {
    assert (items + [item])[..|items|] == items;
  }
}
