/** UNO cards and their string form: the colour and trait tables, the
    108-card deck, `cards2list` and `hand2dict` of rlcard/games/uno/utils.py.

    A card string is `<colour>-<trait>` ("r-7", "g-draw_2", "y-wild_draw_4").
    The card's type ('number', 'action', 'wild') is fixed by its trait, as
    every card of the deck is built that way. */
module UnoCards {
  import opened Wrappers

  // ---------------------------------------------------------------- colours

  /** Card.info['color'], in this order; COLOR_MAP gives the index. */
  datatype Color = Red | Green | Blue | Yellow

  const Colors: seq<Color> := [Red, Green, Blue, Yellow]

  /** COLOR_MAP */
  function ColorIndex(c: Color): (i: nat)
    ensures i < 4 && Colors[i] == c
  {
    match c
    case Red => 0
    case Green => 1
    case Blue => 2
    case Yellow => 3
  }

  function ColorName(c: Color): string
  {
    match c
    case Red => "r"
    case Green => "g"
    case Blue => "b"
    case Yellow => "y"
  }

  /** Lookup in COLOR_MAP; None is the KeyError. */
  function ColorOfName(s: string): Option<Color>
  {
    if s == "r" then Some(Red)
    else if s == "g" then Some(Green)
    else if s == "b" then Some(Blue)
    else if s == "y" then Some(Yellow)
    else None
  }

  // ----------------------------------------------------------------- traits

  /** The index of a trait in TRAIT_MAP (and in Card.info['trait']):
      0..9 are the number faces, then skip, reverse, draw_2, wild, wild_draw_4. */
  type Trait = t: nat | t < 15

  const SKIP: Trait := 10
  const REVERSE: Trait := 11
  const DRAW_2: Trait := 12
  const WILD: Trait := 13
  const WILD_DRAW_4: Trait := 14

  function TraitName(t: Trait): string
  {
    if t == 0 then "0" else if t == 1 then "1" else if t == 2 then "2"
    else if t == 3 then "3" else if t == 4 then "4" else if t == 5 then "5"
    else if t == 6 then "6" else if t == 7 then "7" else if t == 8 then "8"
    else if t == 9 then "9" else if t == SKIP then "skip"
    else if t == REVERSE then "reverse" else if t == DRAW_2 then "draw_2"
    else if t == WILD then "wild" else "wild_draw_4"
  }

  /** Lookup in TRAIT_MAP; None is the KeyError. */
  function TraitOfName(s: string): Option<Trait>
  {
    if s == "0" then Some(0) else if s == "1" then Some(1)
    else if s == "2" then Some(2) else if s == "3" then Some(3)
    else if s == "4" then Some(4) else if s == "5" then Some(5)
    else if s == "6" then Some(6) else if s == "7" then Some(7)
    else if s == "8" then Some(8) else if s == "9" then Some(9)
    else if s == "skip" then Some(SKIP) else if s == "reverse" then Some(REVERSE)
    else if s == "draw_2" then Some(DRAW_2) else if s == "wild" then Some(WILD)
    else if s == "wild_draw_4" then Some(WILD_DRAW_4)
    else None
  }

  datatype CardType = Number | Action | WildType

  function TypeOf(t: Trait): CardType
  {
    if t < 10 then Number else if t < WILD then Action else WildType
  }

  // ------------------------------------------------------------------ cards

  datatype Card = Card(color: Color, face: Trait) {

    function Type(): CardType
    {
      TypeOf(face)
    }

    /** UnoCard.str / get_str(): colour and trait joined by '-'. */
    function Str(): string
    {
      ColorName(color) + "-" + TraitName(face)
    }
  }

  // ------------------------------------------------------ Python str.split

  /** Python's `s.split(sep)` for a one-character separator. */
  function Split(s: string, sep: char): (parts: seq<string>)
    ensures |parts| >= 1
  {
    if |s| == 0 then [""]
    else if s[0] == sep then [""] + Split(s[1..], sep)
    else
      var rest := Split(s[1..], sep);
      [[s[0]] + rest[0]] + rest[1..]
  }

  lemma {:induction false} SplitWithoutSeparator(s: string, sep: char)
    requires sep !in s
    ensures Split(s, sep) == [s]
  {
    if |s| > 0 {
      SplitWithoutSeparator(s[1..], sep);
      assert [s[0]] + s[1..] == s;
    }
  }

  lemma {:induction false} SplitAtFirstSeparator(a: string, sep: char, b: string)
    requires sep !in a
    ensures Split(a + [sep] + b, sep) == [a] + Split(b, sep)
  {
    if |a| == 0 {
      assert a + [sep] + b == [sep] + b;
      assert ([sep] + b)[1..] == b;
    } else {
      SplitAtFirstSeparator(a[1..], sep, b);
      assert (a + [sep] + b)[1..] == a[1..] + [sep] + b;
      assert [a[0]] + a[1..] == a;
    }
  }

  /** `card.split('-')` followed by the COLOR_MAP and TRAIT_MAP lookups, as the
      encoders and proceed_round read an action string. None when Python
      raises (no '-' gives an IndexError, an unknown colour or trait a KeyError). */
  function ParseCard(s: string): Option<Card>
  {
    var parts := Split(s, '-');
    if |parts| < 2 then None
    else
      var color :- ColorOfName(parts[0]);
      var face :- TraitOfName(parts[1]);
      Some(Card(color, face))
  }

  /** Reading a card's own string gives the card back. */
  lemma ParseCardStr(c: Card)
    ensures ParseCard(c.Str()) == Some(c)
  {
    var name := TraitName(c.face);
    TraitNameRoundTrip(c.face);
    ColorNameRoundTrip(c.color);
    SplitWithoutSeparator(name, '-');
    SplitAtFirstSeparator(ColorName(c.color), '-', name);
    assert c.Str() == ColorName(c.color) + ['-'] + name;
  }

  lemma ColorNameRoundTrip(c: Color)
    ensures ColorOfName(ColorName(c)) == Some(c) && '-' !in ColorName(c)
  {
  }

  lemma TraitNameRoundTrip(t: Trait)
    ensures TraitOfName(TraitName(t)) == Some(t) && '-' !in TraitName(t)
  {
    if t < 10 {
      assert |TraitName(t)| == 1;
    } else if t < WILD {
      assert t == SKIP || t == REVERSE || t == DRAW_2;
    } else {
      assert t == WILD || t == WILD_DRAW_4;
    }
  }

  /** Distinct cards have distinct strings. */
  lemma StrInjective(c: Card, d: Card)
    ensures c.Str() == d.Str() <==> c == d
  {
    if c.Str() == d.Str() {
      ParseCardStr(c);
      ParseCardStr(d);
    }
  }

  // ------------------------------------------------------------- init_deck

  /** The number cards of one colour from face `num` on: one '0', two of each
      other face (the inner loop of init_deck over traits[:10]). */
  function NumberCards(c: Color, num: nat): seq<Card>
    requires num <= 10
    decreases 10 - num
  {
    if num == 10 then []
    else [Card(c, num)] + (if num != 0 then [Card(c, num)] else []) + NumberCards(c, num + 1)
  }

  /** Two of each action card of one colour from face `t` on (traits[10:13]). */
  function ActionCards(c: Color, t: nat): seq<Card>
    requires 10 <= t <= 13
    decreases 13 - t
  {
    if t == 13 then [] else [Card(c, t), Card(c, t)] + ActionCards(c, t + 1)
  }

  /** One wild and one wild_draw_4 in each colour (traits[-2:]). */
  function WildCards(c: Color): seq<Card>
  {
    [Card(c, WILD), Card(c, WILD_DRAW_4)]
  }

  function ColorDeck(c: Color): seq<Card>
  {
    NumberCards(c, 0) + ActionCards(c, 10) + WildCards(c)
  }

  /** init_deck: the colours in Card.info order, each with its 27 cards. */
  function InitDeck(): seq<Card>
  {
    ColorDeck(Red) + ColorDeck(Green) + ColorDeck(Blue) + ColorDeck(Yellow)
  }

  /** How many copies of a card the UNO deck holds. */
  function Copies(t: Trait): nat
  {
    if t == 0 then 1
    else if t < WILD then 2
    else 1
  }

  lemma {:induction false} NumberCardsCount(c: Color, num: nat, d: Card)
    requires num <= 10
    ensures multiset(NumberCards(c, num))[d] ==
              if d.color == c && num <= d.face < 10 then Copies(d.face) else 0
    decreases 10 - num
  {
    if num < 10 {
      var head := [Card(c, num)] + (if num != 0 then [Card(c, num)] else []);
      var rest := NumberCards(c, num + 1);
      NumberCardsCount(c, num + 1, d);
      assert NumberCards(c, num) == head + rest;
      assert multiset(NumberCards(c, num)) == multiset(head) + multiset(rest);
      assert multiset(head)[d] == if d == Card(c, num) then Copies(num) else 0;
    }
  }

  lemma {:induction false} ActionCardsCount(c: Color, t: nat, d: Card)
    requires 10 <= t <= 13
    ensures multiset(ActionCards(c, t))[d] ==
              if d.color == c && t <= d.face < 13 then 2 else 0
    decreases 13 - t
  {
    if t < 13 {
      var rest := ActionCards(c, t + 1);
      var pair := [Card(c, t), Card(c, t)];
      ActionCardsCount(c, t + 1, d);
      assert ActionCards(c, t) == pair + rest;
      assert multiset(ActionCards(c, t)) == multiset(pair) + multiset(rest);
      assert multiset(pair)[d] == if d == Card(c, t) then 2 else 0;
    }
  }

  lemma {:induction false} NumberCardsLength(c: Color, num: nat)
    requires num <= 10
    ensures |NumberCards(c, num)| == 2 * (10 - num) - (if num == 0 then 1 else 0)
    decreases 10 - num
  {
    if num < 10 {
      NumberCardsLength(c, num + 1);
    }
  }

  lemma {:induction false} ActionCardsLength(c: Color, t: nat)
    requires 10 <= t <= 13
    ensures |ActionCards(c, t)| == 2 * (13 - t)
    decreases 13 - t
  {
    if t < 13 {
      ActionCardsLength(c, t + 1);
    }
  }

  lemma MultisetConcat3(n: seq<Card>, a: seq<Card>, w: seq<Card>, d: Card)
    ensures multiset(n + a + w)[d] == multiset(n)[d] + multiset(a)[d] + multiset(w)[d]
  {
    assert multiset(n + a + w) == multiset(n) + multiset(a) + multiset(w);
  }

  lemma ColorDeckLength(c: Color)
    ensures |ColorDeck(c)| == 27
  {
    NumberCardsLength(c, 0);
    ActionCardsLength(c, 10);
  }

  lemma ColorDeckCount(c: Color, d: Card)
    ensures multiset(ColorDeck(c))[d] == if d.color == c then Copies(d.face) else 0
  {
    var n, a, w := NumberCards(c, 0), ActionCards(c, 10), WildCards(c);
    MultisetConcat3(n, a, w, d);
    assert ColorDeck(c) == n + a + w;
    NumberCardsCount(c, 0, d);
    ActionCardsCount(c, 10, d);
    WildCardsCount(c, d);
    var cn, ca, cw := multiset(n)[d], multiset(a)[d], multiset(w)[d];
    if d.color != c {
      assert cn == 0 && ca == 0 && cw == 0;
    } else if d.face < 10 {
      assert ca == 0 && cw == 0;
    } else if d.face < WILD {
      assert cn == 0 && cw == 0 && ca == 2 == Copies(d.face);
    } else {
      assert cn == 0 && ca == 0 && cw == 1 == Copies(d.face);
    }
  }

  lemma WildCardsCount(c: Color, d: Card)
    ensures multiset(WildCards(c))[d] == if d.color == c && d.face >= WILD then 1 else 0
  {
  }

  /** init_deck returns 108 cards: per colour one '0', two of each of '1'-'9',
      skip, reverse and draw_2, and one wild and one wild_draw_4. */
  lemma InitDeckContents(d: Card)
    ensures |InitDeck()| == 108
    ensures multiset(InitDeck())[d] == Copies(d.face)
  {
    ColorDeckLength(Red);
    ColorDeckLength(Green);
    ColorDeckLength(Blue);
    ColorDeckLength(Yellow);
    ColorDeckCount(Red, d);
    ColorDeckCount(Green, d);
    ColorDeckCount(Blue, d);
    ColorDeckCount(Yellow, d);
    var r, g, b, y := ColorDeck(Red), ColorDeck(Green), ColorDeck(Blue), ColorDeck(Yellow);
    assert multiset(r + g + b + y) == multiset(r) + multiset(g) + multiset(b) + multiset(y);
  }

  // ------------------------------------------------------------ cards2list

  /** cards2list: the string of every card, in order. */
  function Cards2List(cards: seq<Card>): (strs: seq<string>)
    ensures |strs| == |cards|
    ensures forall i :: 0 <= i < |cards| ==> strs[i] == cards[i].Str()
  {
    if cards == [] then [] else [cards[0].Str()] + Cards2List(cards[1..])
  }

  /** Reading every string of a list, failing on the first that does not parse. */
  function ParseAll(strs: seq<string>): Option<seq<Card>>
  {
    if strs == [] then Some([])
    else
      var c :- ParseCard(strs[0]);
      var rest :- ParseAll(strs[1..]);
      Some([c] + rest)
  }

  /** cards2list loses nothing: the strings read back as the same cards in
      the same order. */
  lemma {:induction false} ParseAllCards2List(cards: seq<Card>)
    ensures ParseAll(Cards2List(cards)) == Some(cards)
  {
    if cards != [] {
      ParseCardStr(cards[0]);
      ParseAllCards2List(cards[1..]);
      assert Cards2List(cards)[1..] == Cards2List(cards[1..]);
      assert [cards[0]] + cards[1..] == cards;
    }
  }

  // ------------------------------------------------------------- hand2dict

  /** A Python dict keeps its keys in insertion order: the model of the dict
      built by hand2dict is its list of (key, count) items. */
  type Items = seq<(string, nat)>

  function Keys(d: Items): set<string>
  {
    set i | 0 <= i < |d| :: d[i].0
  }

  ghost predicate DistinctKeys(d: Items)
  {
    forall i, j :: 0 <= i < j < |d| ==> d[i].0 != d[j].0
  }

  function SumCounts(d: Items): nat
  {
    if d == [] then 0 else d[0].1 + SumCounts(d[1..])
  }

  /** One step of hand2dict's loop: a new key enters with count 1 at the end,
      a known key's count goes up by one in place. */
  function Bump(d: Items, card: string): Items
  {
    if d == [] then [(card, 1)]
    else if d[0].0 == card then [(card, d[0].1 + 1)] + d[1..]
    else [d[0]] + Bump(d[1..], card)
  }

  /** hand2dict: the loop over the hand, one Bump per card. */
  function Hand2Dict(hand: seq<string>): Items
  {
    if hand == [] then [] else Bump(Hand2Dict(hand[..|hand| - 1]), hand[|hand| - 1])
  }

  lemma {:induction false} KeysBump(d: Items, card: string)
    ensures Keys(Bump(d, card)) == Keys(d) + {card}
    ensures card in Keys(d) ==> |Bump(d, card)| == |d|
    ensures card !in Keys(d) ==> Bump(d, card) == d + [(card, 1)]
    ensures forall i :: 0 <= i < |d| ==> Bump(d, card)[i].0 == d[i].0
  {
    if d != [] {
      KeysCons(d[0], d[1..]);
      assert [d[0]] + d[1..] == d;
      KeysBump(d[1..], card);
      if d[0].0 == card {
        KeysCons((card, d[0].1 + 1), d[1..]);
      } else {
        KeysCons(d[0], Bump(d[1..], card));
      }
    }
  }

  lemma {:induction false} BumpSpec(d: Items, card: string)
    requires DistinctKeys(d)
    ensures DistinctKeys(Bump(d, card))
    ensures Keys(Bump(d, card)) == Keys(d) + {card}
    ensures SumCounts(Bump(d, card)) == SumCounts(d) + 1
    ensures forall key :: Count(Bump(d, card), key) == Count(d, key) + (if key == card then 1 else 0)
  {
    KeysBump(d, card);
    if d != [] {
      BumpSpec(d[1..], card);
    }
    var b := Bump(d, card);
    if card !in Keys(d) {
      forall i, j | 0 <= i < j < |b| ensures b[i].0 != b[j].0 {
        if j == |d| {
          assert b[j].0 == card;
          assert b[i] == d[i];
        }
      }
    } else {
      forall i, j | 0 <= i < j < |b| ensures b[i].0 != b[j].0 {
        assert b[i].0 == d[i].0 && b[j].0 == d[j].0;
      }
    }
  }

  /** The count a list of items gives a key (0 when the key is absent). */
  function Count(d: Items, key: string): nat
  {
    if d == [] then 0 else if d[0].0 == key then d[0].1 else Count(d[1..], key)
  }

  lemma {:induction false} CountAt(d: Items, i: nat)
    requires DistinctKeys(d) && i < |d|
    ensures Count(d, d[i].0) == d[i].1
  {
    if i > 0 {
      CountAt(d[1..], i - 1);
    }
  }

  lemma KeysCons(x: (string, nat), d: Items)
    ensures Keys([x] + d) == {x.0} + Keys(d)
  {
    var e := [x] + d;
    assert e[0] == x;
    forall k | k in Keys(e) ensures k in {x.0} + Keys(d) {
      var i :| 0 <= i < |e| && e[i].0 == k;
      if i > 0 { assert e[i] == d[i - 1]; }
    }
    forall k | k in Keys(d) ensures k in Keys(e) {
      var i :| 0 <= i < |d| && d[i].0 == k;
      assert e[i + 1] == d[i];
    }
  }

  /** hand2dict: every key is a card of the hand and appears once, its count is
      the number of times that string occurs in the hand, and the counts add
      up to the length of the hand. */
  lemma {:induction false} Hand2DictSpec(hand: seq<string>)
    ensures DistinctKeys(Hand2Dict(hand))
    ensures Keys(Hand2Dict(hand)) == set s | s in hand
    ensures forall key :: Count(Hand2Dict(hand), key) == multiset(hand)[key]
    ensures SumCounts(Hand2Dict(hand)) == |hand|
  {
    if hand != [] {
      var front, last := hand[..|hand| - 1], hand[|hand| - 1];
      Hand2DictSpec(front);
      BumpSpec(Hand2Dict(front), last);
      assert hand == front + [last];
      assert multiset(hand) == multiset(front) + multiset{last};
      assert (set s | s in hand) == (set s | s in front) + {last};
    }
  }

  /** Each item of hand2dict's result carries the number of occurrences of its key. */
  lemma Hand2DictItems(hand: seq<string>)
    ensures forall i :: 0 <= i < |Hand2Dict(hand)| ==>
              Hand2Dict(hand)[i].1 == multiset(hand)[Hand2Dict(hand)[i].0] > 0
  {
    var d := Hand2Dict(hand);
    Hand2DictSpec(hand);
    forall i | 0 <= i < |d| ensures d[i].1 == multiset(hand)[d[i].0] > 0 {
      CountAt(d, i);
      assert d[i].0 in Keys(d);
    }
  }
}
