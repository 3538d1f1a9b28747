/** What the moves of an UNO round guarantee: the round keeps its shape and
    its cards, and each move has the effect the rules give it. */
module RoundProps {
  import opened Wrappers
  import opened UnoCards
  import opened UnoJudger
  import opened UnoRound

  // ---------------------------------------------------------- the shape

  lemma DealValid(s: RoundState, p: nat, k: nat)
    requires Valid(s) && p < |s.hands| && k <= |s.deck|
    ensures Valid(Deal(s, p, k))
  {
  }

  lemma NonNumberValid(s: RoundState, card: Card)
    requires Valid(s)
    ensures Valid(NonNumber(s, card))
  {
  }

  /** Every move leaves a round of the same shape. */
  lemma ProceedValid(s: RoundState, m: Move)
    requires Valid(s)
    ensures Valid(Proceed(s, m).state)
  {
    match m
    case Draw =>
    case Pass =>
    case Play(c) =>
      var s0 := s.(action := Some(m));
      match FindCard(s0.hands[s0.currentPlayer], c)
      case None =>
      case Some(i) =>
        var s2 := Removed(s0, i);
        assert Proceed(s, m).state == CardEffect(s2, s0.hands[s0.currentPlayer][i], c);
        EffectValid(s2, s0.hands[s0.currentPlayer][i], c);
  }

  lemma EffectValid(s: RoundState, card: Card, c: Card)
    requires Valid(s)
    ensures Valid(CardEffect(s, card, c))
  {
    if card.Type() != Number {
      NonNumberValid(s, Played(card, c));
    }
  }

  // ---------------------------------------------------------- the cards

  /** Replacing one hand changes the cards in hands by exactly that hand. */
  lemma {:induction false} BagUpdate(hands: seq<seq<Card>>, i: nat, h: seq<Card>)
    requires i < |hands|
    ensures Bag(hands[i := h]) + multiset(hands[i]) == Bag(hands) + multiset(h)
  {
    var last := |hands| - 1;
    var updated := hands[i := h];
    assert Bag(hands) == Bag(hands[..last]) + multiset(hands[last]);
    assert Bag(updated) == Bag(updated[..last]) + multiset(updated[last]);
    if i < last {
      BagUpdate(hands[..last], i, h);
      assert updated[..last] == hands[..last][i := h];
      assert hands[..last][i] == hands[i];
      assert updated[last] == hands[last];
      calc {
        Bag(updated) + multiset(hands[i]);
        Bag(hands[..last][i := h]) + multiset(hands[last]) + multiset(hands[i]);
        (Bag(hands[..last][i := h]) + multiset(hands[..last][i])) + multiset(hands[last]);
        Bag(hands[..last]) + multiset(h) + multiset(hands[last]);
        Bag(hands) + multiset(h);
      }
    } else {
      assert updated[..last] == hands[..last];
    }
  }

  lemma MultisetCancel(a: multiset<Card>, b: multiset<Card>, c: multiset<Card>)
    requires a + c == b + c
    ensures a == b
  {
    forall x ensures a[x] == b[x] {
      assert (a + c)[x] == (b + c)[x];
    }
  }

  /** Popping k cards off the deck loses none. */
  lemma {:induction false} PoppedSplit(deck: seq<Card>, k: nat)
    requires k <= |deck|
    ensures multiset(deck[..|deck| - k]) + multiset(Popped(deck, k)) == multiset(deck)
  {
    if k == 0 {
      assert deck[..|deck|] == deck;
      assert Popped(deck, 0) == [];
    } else {
      PoppedSplit(deck, k - 1);
      var j := |deck| - k;
      assert deck[..j + 1] == deck[..j] + [deck[j]];
      assert Popped(deck, k) == Popped(deck, k - 1) + [deck[j]];
    }
  }

  lemma DealConserves(s: RoundState, p: nat, k: nat)
    requires p < |s.hands| && k <= |s.deck|
    ensures Cards(Deal(s, p, k)) == Cards(s)
  {
    var d := Deal(s, p, k);
    var popped := Popped(s.deck, k);
    var rest, added := s.deck[..|s.deck| - k], multiset(popped);
    PoppedSplit(s.deck, k);
    BagUpdate(s.hands, p, s.hands[p] + popped);
    assert multiset(s.hands[p] + popped) == multiset(s.hands[p]) + added;
    MultisetCancel(Bag(d.hands), Bag(s.hands) + added, multiset(s.hands[p]));
    assert d.deck == rest;
    forall x ensures Cards(d)[x] == Cards(s)[x] {
      assert Bag(d.hands)[x] == Bag(s.hands)[x] + added[x];
      assert multiset(s.deck)[x] == multiset(rest)[x] + added[x];
    }
  }

  lemma NonNumberConserves(s: RoundState, card: Card)
    requires Valid(s)
    ensures Cards(NonNumber(s, card)) == Cards(s)
  {
    var next := NextPlayer(s.currentPlayer, s.direction, s.numPlayers);
    if (card.face == DRAW_2 && |s.deck| >= 2) || (card.face == WILD_DRAW_4 && |s.deck| >= 4) {
      DealConserves(s, next, if card.face == DRAW_2 then 2 else 4);
    }
  }

  lemma DrawConserves(s: RoundState)
    requires Valid(s)
    ensures Cards(DrawCard(s).state) == Cards(s)
  {
    if s.deck != [] {
      var d := Deal(s, s.currentPlayer, 1);
      DealConserves(s, s.currentPlayer, 1);
      assert Popped(s.deck, 1) == [s.deck[|s.deck| - 1]];
      assert DrawCard(s).state.deck == d.deck && DrawCard(s).state.hands == d.hands;
      assert DrawCard(s).state.playedCards == d.playedCards;
    }
  }

  /** Taking out the card at i leaves the rest of the hand. */
  lemma RemoveAt(hand: seq<Card>, i: nat)
    requires i < |hand|
    ensures multiset(hand[..i] + hand[i + 1..]) + multiset{hand[i]} == multiset(hand)
  {
    assert hand == hand[..i] + [hand[i]] + hand[i + 1..];
  }

  lemma PlayConserves(s: RoundState, c: Card)
    requires Valid(s)
    ensures Cards(PlayCard(s, c).state) == Cards(s)
  {
    match FindCard(s.hands[s.currentPlayer], c)
    case None =>
    case Some(i) =>
      RemovalConserves(s, i);
      PlayedCardConserves(s, c, i);
  }

  lemma RemovalConserves(s: RoundState, i: nat)
    requires Valid(s) && i < |s.hands[s.currentPlayer]|
    ensures Cards(Removed(s, i)) == Cards(s)
  {
    var cur := s.currentPlayer;
    var hand := s.hands[cur];
    var rest := hand[..i] + hand[i + 1..];
    var r := Removed(s, i);
    RemoveAt(hand, i);
    BagUpdate(s.hands, cur, rest);
    assert r.deck == s.deck && r.hands == s.hands[cur := rest] && r.playedCards == s.playedCards + [hand[i]];
    assert multiset(r.playedCards) == multiset(s.playedCards) + multiset{hand[i]};
    forall x ensures Cards(r)[x] == Cards(s)[x] {
      assert (Bag(r.hands) + multiset(hand))[x] == (Bag(s.hands) + multiset(rest))[x];
      assert multiset(hand)[x] == multiset(rest)[x] + multiset{hand[i]}[x];
    }
  }

  /** The last step of a card play, after the card has left the hand. */
  lemma PlayedCardConserves(s: RoundState, c: Card, i: nat)
    requires Valid(s) && FindCard(s.hands[s.currentPlayer], c) == Some(i)
    requires Cards(Removed(s, i)) == Cards(s)
    ensures Cards(PlayCard(s, c).state) == Cards(s)
  {
    var card := s.hands[s.currentPlayer][i];
    if card.Type() != Number {
      NonNumberConserves(Removed(s, i), Played(card, c));
    }
  }

  /** No move creates or destroys a card: deck, hands and played pile hold
      the same cards before and after. */
  lemma ProceedConserves(s: RoundState, m: Move)
    requires Valid(s)
    ensures Cards(Proceed(s, m).state) == Cards(s)
  {
    var s0 := s.(action := Some(m));
    match m
    case Draw => DrawConserves(s0.(drawPlayer := Some(s.currentPlayer)));
    case Pass =>
    case Play(c) => PlayConserves(s0, c);
  }

  // ---------------------------------------------------------- the turn

  /** _perform_pass_action with two players always hands the turn to the
      other player, whichever the direction. */
  lemma TwoPlayerNext(cur: nat, dir: int)
    requires cur < 2 && (dir == 1 || dir == -1)
    ensures NextPlayer(cur, dir, 2) == 1 - cur
    ensures NextPlayer(1 - cur, dir, 2) == cur
  {
    OtherOfTwo(cur, dir);
    OtherOfTwo(1 - cur, dir);
  }

  lemma OtherOfTwo(cur: nat, dir: int)
    requires cur < 2 && (dir == 1 || dir == -1)
    ensures NextPlayer(cur, dir, 2) == 1 - cur
  {
  }

  lemma BackOfTwo(cur: nat, dir: int)
    requires cur < 2 && (dir == 1 || dir == -1)
    ensures NextPlayer(1 - cur, dir, 2) == cur
  {
  }

  // ------------------------------------------------------- playing a card

  /** Playing a card: Python raises exactly when no card of the hand
      matches (a wild by trait alone); otherwise the first matching card
      leaves the current hand for the played pile, and an emptied hand ends
      the round with the current player as winner. */
  lemma PlayEffect(s: RoundState, c: Card)
    requires Valid(s)
    ensures var r := Proceed(s, Play(c));
            var hand := s.hands[s.currentPlayer];
            && |r.state.hands| == |s.hands|
            && (r.raised <==> forall j :: 0 <= j < |hand| ==> !Removes(hand[j], c))
            && r.state.action == Some(Play(c))
            && (!r.raised ==>
                  exists i :: 0 <= i < |hand| && Removes(hand[i], c) &&
                    r.state.playedCards == s.playedCards + [hand[i]] &&
                    (s.numPlayers >= 2 ==>
                       multiset(r.state.hands[s.currentPlayer]) + multiset{hand[i]} == multiset(hand)) &&
                    (|hand| == 1 ==> r.state.isOver && r.state.winner == Some([s.currentPlayer])) &&
                    (|hand| != 1 ==> r.state.winner == s.winner))
  {
    var hand := s.hands[s.currentPlayer];
    var s0 := s.(action := Some(Play(c)));
    assert Proceed(s, Play(c)) == PlayCard(s0, c);
    match FindCard(hand, c)
    case None =>
    case Some(i) =>
      PlayEffectAt(s0, c, i);
  }

  /** PlayEffect for the card FindCard picks. */
  lemma PlayEffectAt(s: RoundState, c: Card, i: nat)
    requires Valid(s) && FindCard(s.hands[s.currentPlayer], c) == Some(i)
    ensures |PlayCard(s, c).state.hands| == |s.hands|
    ensures !PlayCard(s, c).raised
    ensures PlayCard(s, c).state.action == s.action
    ensures PlayCard(s, c).state.playedCards == s.playedCards + [s.hands[s.currentPlayer][i]]
    ensures s.numPlayers >= 2 ==>
              multiset(PlayCard(s, c).state.hands[s.currentPlayer]) + multiset{s.hands[s.currentPlayer][i]}
                == multiset(s.hands[s.currentPlayer])
    ensures |s.hands[s.currentPlayer]| == 1 ==>
              PlayCard(s, c).state.isOver && PlayCard(s, c).state.winner == Some([s.currentPlayer])
    ensures |s.hands[s.currentPlayer]| != 1 ==> PlayCard(s, c).state.winner == s.winner
  {
    RemovalEffect(s, i);
    PlayKeeps(s, c, i);
  }

  /** What the rest of a card play keeps from the state after the removal. */
  lemma PlayKeeps(s: RoundState, c: Card, i: nat)
    requires Valid(s) && FindCard(s.hands[s.currentPlayer], c) == Some(i)
    ensures |PlayCard(s, c).state.hands| == |s.hands| && |Removed(s, i).hands| == |s.hands|
    ensures !PlayCard(s, c).raised
    ensures PlayCard(s, c).state.action == Removed(s, i).action
    ensures PlayCard(s, c).state.playedCards == Removed(s, i).playedCards
    ensures PlayCard(s, c).state.winner == Removed(s, i).winner
    ensures Removed(s, i).isOver ==> PlayCard(s, c).state.isOver
    ensures s.numPlayers >= 2 ==>
              PlayCard(s, c).state.hands[s.currentPlayer] == Removed(s, i).hands[s.currentPlayer]
  {
    var card := s.hands[s.currentPlayer][i];
    var s2 := Removed(s, i);
    assert PlayCard(s, c) == Proceeded(false, CardEffect(s2, card, c));
    EffectKeeps(s2, card, c);
  }

  /** What the effect of a played card leaves alone. */
  lemma EffectKeeps(s: RoundState, card: Card, c: Card)
    requires Valid(s)
    ensures |CardEffect(s, card, c).hands| == |s.hands|
    ensures CardEffect(s, card, c).action == s.action
    ensures CardEffect(s, card, c).playedCards == s.playedCards
    ensures CardEffect(s, card, c).winner == s.winner
    ensures s.isOver ==> CardEffect(s, card, c).isOver
    ensures s.numPlayers >= 2 ==> CardEffect(s, card, c).hands[s.currentPlayer] == s.hands[s.currentPlayer]
  {
    if card.Type() != Number {
      NonNumberValid(s, Played(card, c));
      NonNumberKeeps(s, Played(card, c));
    }
  }

  /** What taking card i out of the current hand does to the round. */
  lemma RemovalEffect(s: RoundState, i: nat)
    requires Valid(s) && i < |s.hands[s.currentPlayer]|
    ensures var s2 := Removed(s, i);
            var hand := s.hands[s.currentPlayer];
            && s2.action == s.action && s2.numPlayers == s.numPlayers
            && s2.currentPlayer == s.currentPlayer && s2.direction == s.direction
            && s2.playedCards == s.playedCards + [hand[i]]
            && multiset(s2.hands[s.currentPlayer]) + multiset{hand[i]} == multiset(hand)
            && (|hand| == 1 ==> s2.isOver && s2.winner == Some([s.currentPlayer]))
            && (|hand| != 1 ==> s2.winner == s.winner)
  {
    var hand := s.hands[s.currentPlayer];
    var rest := hand[..i] + hand[i + 1..];
    RemoveAt(hand, i);
    assert rest == [] <==> |hand| == 1;
  }

  /** What NonNumber leaves alone: the winner, the played pile, the game-over
      flag unless it sets it, and, with two or more players, the current
      player's hand. */
  lemma NonNumberKeeps(s: RoundState, card: Card)
    requires Valid(s)
    ensures var r := NonNumber(s, card);
            && r.winner == s.winner && r.playedCards == s.playedCards
            && (s.isOver ==> r.isOver)
            && (s.numPlayers >= 2 ==> r.hands[s.currentPlayer] == s.hands[s.currentPlayer])
  {
    var next := NextPlayer(s.currentPlayer, s.direction, s.numPlayers);
    assert s.numPlayers >= 2 ==> next != s.currentPlayer;
  }

  /** A number card passes the turn one step and becomes the target. */
  lemma NumberCardEffect(s: RoundState, c: Card)
    requires Valid(s) && c.Type() == Number && c in s.hands[s.currentPlayer]
    ensures var r := Proceed(s, Play(c));
            && !r.raised
            && r.state.target == Some(c)
            && r.state.currentPlayer == NextPlayer(s.currentPlayer, s.direction, s.numPlayers)
            && r.state.direction == s.direction
  {
    var hand := s.hands[s.currentPlayer];
    var j :| 0 <= j < |hand| && hand[j] == c;
    assert Removes(hand[j], c);
    var i := FindCard(hand, c).value;
    assert hand[i] == c;
  }

  // ------------------------------------------------ the non-number cards

  /** Skip, draw_2 and wild_draw_4 pass over the other player, so with two
      players the same player moves again; draw_2 and wild_draw_4 move
      exactly 2 or 4 cards, the last ones of the deck, to that player. */
  lemma TwoPlayerSkipAndDraw(s: RoundState, card: Card)
    requires Valid(s) && s.numPlayers == 2
    requires card.face == SKIP || card.face == DRAW_2 || card.face == WILD_DRAW_4
    requires card.face == DRAW_2 ==> |s.deck| >= 2
    requires card.face == WILD_DRAW_4 ==> |s.deck| >= 4
    ensures var r := NonNumber(s, card);
            var k := if card.face == DRAW_2 then 2 else if card.face == WILD_DRAW_4 then 4 else 0;
            var other := 1 - s.currentPlayer;
            && |r.hands| == 2
            && r.currentPlayer == s.currentPlayer
            && r.target == Some(card)
            && r.isOver == s.isOver
            && |r.deck| == |s.deck| - k
            && r.hands[other] == s.hands[other] + Popped(s.deck, k)
            && r.hands[s.currentPlayer] == s.hands[s.currentPlayer]
  {
    if card.face == SKIP {
      TwoPlayerSkip(s, card);
    } else {
      TwoPlayerDraw(s, card, if card.face == DRAW_2 then 2 else 4);
    }
  }

  lemma TwoPlayerSkip(s: RoundState, card: Card)
    requires Valid(s) && s.numPlayers == 2 && card.face == SKIP
    ensures NonNumber(s, card) == s.(target := Some(card))
    ensures Popped(s.deck, 0) == [] && s.hands[1 - s.currentPlayer] + [] == s.hands[1 - s.currentPlayer]
  {
    OtherOfTwo(s.currentPlayer, s.direction);
    BackOfTwo(s.currentPlayer, s.direction);
    SkipTurn(s, card);
    assert Popped(s.deck, 0) == [];
  }

  lemma TwoPlayerDraw(s: RoundState, card: Card, k: nat)
    requires Valid(s) && s.numPlayers == 2
    requires (card.face == DRAW_2 && k == 2) || (card.face == WILD_DRAW_4 && k == 4)
    requires k <= |s.deck|
    ensures var r := NonNumber(s, card);
            && |r.hands| == 2
            && r.currentPlayer == s.currentPlayer
            && r.target == Some(card)
            && r.isOver == s.isOver
            && |r.deck| == |s.deck| - k
            && r.hands[1 - s.currentPlayer] == s.hands[1 - s.currentPlayer] + Popped(s.deck, k)
            && r.hands[s.currentPlayer] == s.hands[s.currentPlayer]
  {
    OtherOfTwo(s.currentPlayer, s.direction);
    BackOfTwo(s.currentPlayer, s.direction);
    DrawTurn(s, card, k);
    TwoPlayerDeal(s, k);
  }

  /** NonNumber on a skip: the turn moves two steps. */
  lemma SkipTurn(s: RoundState, card: Card)
    requires Valid(s) && card.face == SKIP
    ensures var next := NextPlayer(s.currentPlayer, s.direction, s.numPlayers);
            NonNumber(s, card) ==
              s.(currentPlayer := NextPlayer(next, s.direction, s.numPlayers), target := Some(card))
  {
  }

  /** NonNumber on draw_2 or wild_draw_4 with enough cards: k cards to the
      next player, whose turn is passed over. */
  lemma DrawTurn(s: RoundState, card: Card, k: nat)
    requires Valid(s)
    requires (card.face == DRAW_2 && k == 2) || (card.face == WILD_DRAW_4 && k == 4)
    requires k <= |s.deck|
    ensures var next := NextPlayer(s.currentPlayer, s.direction, s.numPlayers);
            NonNumber(s, card) ==
              Deal(s, next, k).(currentPlayer := NextPlayer(next, s.direction, s.numPlayers), target := Some(card))
  {
  }

  lemma TwoPlayerDeal(s: RoundState, k: nat)
    requires Valid(s) && s.numPlayers == 2 && k <= |s.deck|
    ensures var d := Deal(s, 1 - s.currentPlayer, k);
            && |d.deck| == |s.deck| - k
            && d.hands[1 - s.currentPlayer] == s.hands[1 - s.currentPlayer] + Popped(s.deck, k)
            && d.hands[s.currentPlayer] == s.hands[s.currentPlayer]
            && d.isOver == s.isOver
  {
  }

  /** When the deck holds fewer cards than draw_2 or wild_draw_4 deals, the
      round ends and nothing else changes: no card moves, and neither the
      target nor the turn. */
  lemma ShortDeckEndsRound(s: RoundState, card: Card)
    requires Valid(s)
    requires (card.face == DRAW_2 && |s.deck| < 2) || (card.face == WILD_DRAW_4 && |s.deck| < 4)
    ensures NonNumber(s, card) == s.(isOver := true)
  {
  }

  /** Reverse turns the direction round before the turn moves, so with two
      players the other player moves next. */
  lemma ReverseEffect(s: RoundState, card: Card)
    requires Valid(s) && card.face == REVERSE
    ensures var r := NonNumber(s, card);
            && r.direction == -s.direction
            && r.currentPlayer == NextPlayer(s.currentPlayer, -s.direction, s.numPlayers)
            && r.target == Some(card)
            && r.hands == s.hands && r.deck == s.deck
            && (s.numPlayers == 2 ==> r.currentPlayer == 1 - s.currentPlayer)
  {
    if s.numPlayers == 2 {
      TwoPlayerNext(s.currentPlayer, -s.direction);
    }
  }

  // ---------------------------------------------------------- drawing

  /** Drawing: with an empty deck the round ends and no hand changes;
      otherwise exactly one card, the deck's last, moves to the current
      hand, and (when there is a target) the turn passes unless that card
      matches the target's colour or trait, or is wild. */
  lemma DrawEffect(s: RoundState)
    requires Valid(s)
    ensures var r := Proceed(s, Draw);
            var cur := s.currentPlayer;
            && r.state.action == Some(Draw) && r.state.drawPlayer == Some(cur)
            && (s.deck == [] ==> !r.raised && r.state.isOver && r.state.hands == s.hands)
            && (s.deck != [] ==>
                  var card := s.deck[|s.deck| - 1];
                  && r.state.deck == s.deck[..|s.deck| - 1]
                  && r.state.hands == s.hands[cur := s.hands[cur] + [card]]
                  && r.state.drawCard == Some(card)
                  && (r.raised <==> s.target.None?)
                  && (s.target.Some? ==>
                        var t := s.target.value;
                        r.state.currentPlayer ==
                          if card.color == t.color || card.face == t.face || card.Type() == WildType
                          then cur else NextPlayer(cur, s.direction, s.numPlayers)))
  {
  }

  // ----------------------------------------------------- legal actions

  predicate HasFaceIn(hand: seq<Card>, f: Trait)
  {
    exists j :: 0 <= j < |hand| && hand[j].face == f
  }

  /** Every move the scan lists is a card play. */
  lemma {:induction false} ScanOnlyPlays(hand: seq<Card>, t: Card, wf: bool, w4: bool)
    ensures forall m :: m in ScanHand(hand, t, wf, w4) ==> m.Play?
  {
    if hand != [] {
      ScanOnlyPlays(hand[1..], t, wf, w4);
      ScanOnlyPlays(hand[1..], t, true, w4);
      ScanOnlyPlays(hand[1..], t, wf, true);
    }
  }

  /** A non-wild card is listed iff the hand holds it and it follows the
      target. */
  lemma {:induction false} ScanNonWild(hand: seq<Card>, t: Card, wf: bool, w4: bool, c: Card)
    requires c.face < WILD
    ensures Play(c) in ScanHand(hand, t, wf, w4) <==> c in hand && Follows(c, t)
  {
    if hand != [] {
      ScanNonWild(hand[1..], t, wf, w4, c);
      ScanNonWild(hand[1..], t, true, w4, c);
      ScanNonWild(hand[1..], t, wf, true, c);
      assert hand == [hand[0]] + hand[1..];
      assert c in hand <==> c == hand[0] || c in hand[1..];
    }
  }

  /** Each colour variant of a wild trait is listed once when the hand
      holds that trait (and the scan has not met it yet), and never
      otherwise. */
  lemma {:induction false} ScanWildCount(hand: seq<Card>, t: Card, wf: bool, w4: bool, col: Color, f: Trait)
    requires f == WILD || f == WILD_DRAW_4
    ensures multiset(ScanHand(hand, t, wf, w4))[Play(Card(col, f))] ==
            if (if f == WILD then wf else w4) || !HasFaceIn(hand, f) then 0 else 1
  {
    var m := Play(Card(col, f));
    if hand != [] {
      var card := hand[0];
      var wf' := wf || card.face == WILD;
      var w4' := w4 || card.face == WILD_DRAW_4;
      ScanUnfold(hand, t, wf, w4);
      ScanHeadCount(card, t, wf, w4, col, f);
      HasFaceCons(hand, f);
      ScanWildCount(hand[1..], t, wf', w4', col, f);
    }
  }

  /** What the scan lists for the first card of the hand. */
  function ScanHead(card: Card, t: Card, wf: bool, w4: bool): seq<Move>
  {
    if card.Type() == WildType then
      if (card.face == WILD && !wf) || (card.face == WILD_DRAW_4 && !w4) then WildGroup(card.face) else []
    else if Follows(card, t) then [Play(card)] else []
  }

  lemma ScanUnfold(hand: seq<Card>, t: Card, wf: bool, w4: bool)
    requires hand != []
    ensures ScanHand(hand, t, wf, w4) ==
            ScanHead(hand[0], t, wf, w4) +
            ScanHand(hand[1..], t, wf || hand[0].face == WILD, w4 || hand[0].face == WILD_DRAW_4)
  {
  }

  lemma ScanHeadCount(card: Card, t: Card, wf: bool, w4: bool, col: Color, f: Trait)
    requires f == WILD || f == WILD_DRAW_4
    ensures multiset(ScanHead(card, t, wf, w4))[Play(Card(col, f))] ==
            if card.face == f && !(if f == WILD then wf else w4) then 1 else 0
  {
    if card.Type() == WildType && ((card.face == WILD && !wf) || (card.face == WILD_DRAW_4 && !w4)) {
      WildGroupCount(card.face, col, f);
    }
  }

  lemma WildGroupCount(g: Trait, col: Color, f: Trait)
    ensures multiset(WildGroup(g))[Play(Card(col, f))] == if g == f then 1 else 0
  {
    var m := Play(Card(col, f));
    var w := WildGroup(g);
    assert multiset(w)[m] == multiset([w[0]])[m] + multiset([w[1]])[m] + multiset([w[2]])[m] + multiset([w[3]])[m] by {
      assert w == [w[0]] + [w[1]] + [w[2]] + [w[3]];
    }
  }

  lemma HasFaceCons(hand: seq<Card>, f: Trait)
    requires hand != []
    ensures HasFaceIn(hand, f) <==> hand[0].face == f || HasFaceIn(hand[1..], f)
  {
    if HasFaceIn(hand[1..], f) {
      var j :| 0 <= j < |hand[1..]| && hand[1..][j].face == f;
      assert hand[j + 1].face == f;
    }
    if HasFaceIn(hand, f) && hand[0].face != f {
      var j :| 0 <= j < |hand| && hand[j].face == f;
      assert hand[1..][j - 1].face == f;
    }
  }

  /** Every card play the scan lists removes a card from the hand. */
  lemma {:induction false} ScanPlayable(hand: seq<Card>, t: Card, wf: bool, w4: bool, m: Move)
    requires m in ScanHand(hand, t, wf, w4)
    ensures m.Play? && exists j :: 0 <= j < |hand| && Removes(hand[j], m.card)
  {
    ScanOnlyPlays(hand, t, wf, w4);
    var card := hand[0];
    if m in ScanHand(hand[1..], t, wf, w4) || m in ScanHand(hand[1..], t, true, w4) ||
       m in ScanHand(hand[1..], t, wf, true) {
      var wf', w4' :| m in ScanHand(hand[1..], t, wf', w4');
      ScanPlayable(hand[1..], t, wf', w4', m);
      var j :| 0 <= j < |hand[1..]| && Removes(hand[1..][j], m.card);
      assert Removes(hand[j + 1], m.card);
    } else {
      assert Removes(hand[0], m.card);
    }
  }

  /** Outside the after-draw case the list ends with 'draw', never offers
      'pass', lists each wild variant at most once (once exactly when the
      hand holds that wild), and lists a non-wild card exactly when the
      hand holds it and it follows the target. */
  lemma LegalActionsScan(s: RoundState, playerId: nat)
    requires Valid(s) && playerId < s.numPlayers && !JustDrew(s) && s.target.Some?
    ensures var r := LegalActions(s, playerId);
            var hand := s.hands[playerId];
            && r.Some? && |r.value| >= 1 && r.value[|r.value| - 1] == Draw
            && multiset(r.value)[Draw] == 1 && Pass !in r.value
            && (forall col: Color, f: Trait :: (f == WILD || f == WILD_DRAW_4) ==>
                  multiset(r.value)[Play(Card(col, f))] == if HasFaceIn(hand, f) then 1 else 0)
            && (forall c: Card :: c.face < WILD ==>
                  (Play(c) in r.value <==> c in hand && Follows(c, s.target.value)))
  {
    var hand := s.hands[playerId];
    var t := s.target.value;
    var scan := ScanHand(hand, t, false, false);
    ScanOnlyPlays(hand, t, false, false);
    assert Draw !in scan && Pass !in scan;
    assert multiset(scan)[Draw] == 0;
    forall col: Color, f: Trait | f == WILD || f == WILD_DRAW_4
      ensures multiset(scan + [Draw])[Play(Card(col, f))] == if HasFaceIn(hand, f) then 1 else 0
    {
      ScanWildCount(hand, t, false, false, col, f);
    }
    forall c: Card | c.face < WILD
      ensures Play(c) in scan + [Draw] <==> c in hand && Follows(c, t)
    {
      ScanNonWild(hand, t, false, false, c);
    }
  }

  /** Right after the current player drew, the options are the drawn card
      (its four colours for a wild) and then 'pass'. */
  lemma LegalActionsAfterDraw(s: RoundState, playerId: nat)
    requires Valid(s) && playerId < s.numPlayers && JustDrew(s) && s.drawCard.Some?
    ensures var r := LegalActions(s, playerId);
            var d := s.drawCard.value;
            && r.Some? && r.value[|r.value| - 1] == Pass && Draw !in r.value
            && (d.Type() == WildType ==>
                  |r.value| == 5 && forall col: Color :: Play(Card(col, d.face)) in r.value)
            && (d.Type() != WildType ==> r.value == [Play(d), Pass])
  {
    var d := s.drawCard.value;
    if d.Type() == WildType {
      forall col: Color ensures Play(Card(col, d.face)) in WildGroup(d.face) {
        assert col == Red || col == Green || col == Blue || col == Yellow;
      }
    }
  }

  /** A draw that keeps the turn (the card fits the target) leaves the
      drawn card as the only card choice besides 'pass'. */
  lemma DrawThenLegal(s: RoundState)
    requires Valid(s) && s.deck != [] && s.target.Some?
    ensures var r := Proceed(s, Draw);
            var card := s.deck[|s.deck| - 1];
            var t := s.target.value;
            (card.color == t.color || card.face == t.face || card.Type() == WildType) ==>
              JustDrew(r.state) &&
              LegalActions(r.state, s.currentPlayer) == Some(AfterDraw(card)) &&
              card in r.state.hands[s.currentPlayer]
  {
    var card := s.deck[|s.deck| - 1];
    var cur := s.currentPlayer;
    var h := s.hands[cur] + [card];
    assert h[|h| - 1] == card;
  }

  /** Every move get_legal_actions offers the current player can be made
      without Python raising (after a draw, provided the drawn card is
      still in the hand). */
  lemma LegalMovesProceed(s: RoundState, m: Move)
    requires Valid(s)
    requires LegalActions(s, s.currentPlayer).Some? && m in LegalActions(s, s.currentPlayer).value
    requires JustDrew(s) ==> s.drawCard.value in s.hands[s.currentPlayer]
    ensures !Proceed(s, m).raised
  {
    var hand := s.hands[s.currentPlayer];
    var s0 := s.(action := Some(m));
    if JustDrew(s) {
      var d := s.drawCard.value;
      var j :| 0 <= j < |hand| && hand[j] == d;
      if m.Play? {
        assert m.card.face == d.face && (d.face < WILD ==> m.card == d);
        assert Removes(hand[j], m.card);
      } else {
        assert m == Pass;
      }
    } else {
      var t := s.target.value;
      if m != Draw {
        assert m in ScanHand(hand, t, false, false);
        ScanPlayable(hand, t, false, false, m);
      }
    }
  }

  // --------------------------------------------------- scores and payoffs

  lemma {:induction false} PointsAppend(a: seq<Card>, b: seq<Card>)
    ensures PointsOf(a + b) == PointsOf(a) + PointsOf(b)
  {
    if b != [] {
      PointsAppend(a, b[..|b| - 1]);
      assert (a + b)[..|a + b| - 1] == a + b[..|b| - 1];
    } else {
      assert a + b == a;
    }
  }

  /** count_hand_score adds up over the cards of a hand. */
  lemma HandScoreAppend(a: seq<Card>, b: seq<Card>)
    ensures HandScore(a + b) == HandScore(a) + HandScore(b)
  {
    PointsAppend(a, b);
  }

  /** count_hand_score is never positive, is at least -50 per card, and is 0
      exactly when every card is a number 0. */
  lemma {:induction false} HandScoreBounds(cards: seq<Card>)
    ensures -50 * |cards| <= HandScore(cards) <= 0
    ensures HandScore(cards) == 0 <==> forall i :: 0 <= i < |cards| ==> cards[i].face == 0
  {
    if cards != [] {
      var init := cards[..|cards| - 1];
      HandScoreBounds(init);
      var c := cards[|cards| - 1];
      assert Points(c) == 0 <==> c.face == 0;
      assert Points(c) <= 50;
      if forall i :: 0 <= i < |cards| ==> cards[i].face == 0 {
        assert forall i :: 0 <= i < |init| ==> init[i].face == 0 by {
          forall i | 0 <= i < |init| ensures init[i].face == 0 {
            assert init[i] == cards[i];
          }
        }
      }
      if HandScore(cards) == 0 {
        forall i | 0 <= i < |cards| ensures cards[i].face == 0 {
          if i < |init| {
            assert init[i] == cards[i];
          }
        }
      }
    }
  }

  lemma {:induction false} SumUpdate(p: seq<int>, i: nat, v: int)
    requires i < |p|
    ensures Sum(p[i := p[i] + v]) == Sum(p) + v
  {
    var last := |p| - 1;
    if i < last {
      SumUpdate(p[..last], i, v);
      assert p[i := p[i] + v][..last] == p[..last][i := p[i] + v];
    } else {
      assert p[i := p[i] + v][..last] == p[..last];
    }
  }

  /** With a single winner the payoffs sum to zero: the winner receives
      exactly what the hands count against everybody. */
  lemma PayoffsZeroSum(s: RoundState)
    requires Valid(s)
    ensures var r := Payoffs(s);
            !r.raised && |r.state.winner.value| == 1 ==> Sum(r.state.payoffs) == 0
  {
    var r := Payoffs(s);
    if !r.raised && |r.state.winner.value| == 1 {
      var scores := Scores(s.hands);
      var w := PayoffsOfOne(s);
      SumUpdate(scores, w, -Sum(scores));
    }
  }

  /** What get_payoffs computes when it finds a single winner. */
  lemma PayoffsOfOne(s: RoundState) returns (w: nat)
    requires Valid(s) && !Payoffs(s).raised && |Payoffs(s).state.winner.value| == 1
    ensures var scores := Scores(s.hands);
            && w < |scores| && Payoffs(s).state.winner == Some([w])
            && Payoffs(s).state.payoffs == scores[w := scores[w] + -Sum(scores)]
  {
    var r := Payoffs(s);
    var scores := Scores(s.hands);
    var ids := r.state.winner.value;
    w := ids[0];
    assert ids == [w];
    assert r.state.payoffs == AddTo(scores, ids, -Sum(scores));
    AddToOne(scores, w, -Sum(scores));
  }

  /** With a single winner the bonus goes to that one payoff. */
  lemma AddToOne(p: seq<int>, w: nat, bonus: int)
    requires w < |p|
    ensures AddTo(p, [w], bonus) == p[w := p[w] + bonus]
  {
    assert [w][1..] == [];
  }

  /** get_payoffs a second time, on the same hands, changes nothing more. */
  lemma PayoffsIdempotent(s: RoundState)
    requires Valid(s)
    ensures Valid(Payoffs(s).state)
    ensures Payoffs(Payoffs(s).state) == Payoffs(s)
  {
    var r := Payoffs(s);
    if !r.raised {
      var ids := r.state.winner.value;
      assert forall i :: 0 <= i < |ids| ==> ids[i] < s.numPlayers by {
        if s.winner.None? {
          assert ids == [0] || ids == [1];
        }
      }
    }
  }

  /** With no winner yet and two or more players, the winner is judged on
      the first two hands: the one with the higher score wins, and equal
      scores leave no winner and make get_payoffs raise. */
  lemma PayoffsJudged(s: RoundState)
    requires Valid(s) && s.winner.None? && s.numPlayers >= 2
    ensures var r := Payoffs(s);
            var a := HandScore(s.hands[0]);
            var b := HandScore(s.hands[1]);
            && (r.raised <==> a == b)
            && (a == b ==> r.state.winner.None?)
            && (a > b ==> r.state.winner == Some([0]))
            && (a < b ==> r.state.winner == Some([1]))
  {
  }

  // ------------------------------------------------------------ get_state

  lemma Cards2ListAppend(a: seq<Card>, b: seq<Card>)
    ensures Cards2List(a + b) == Cards2List(a) + Cards2List(b)
  {
  }

  /** The state a two-player round shows a player exists exactly when the
      round has a target and legal actions; its strings read back as the
      player's hand, the deck followed by the opponent's hand, and the
      played pile, and it counts every player's cards. */
  lemma GetStateTwoPlayers(s: RoundState, p: nat)
    requires Valid(s) && s.numPlayers == 2 && p < 2
    ensures var v := GetState(s, p);
            && (v.Some? <==> s.target.Some? && LegalActions(s, p).Some?)
            && (v.Some? ==>
                  && ParseAll(v.value.hand) == Some(s.hands[p])
                  && ParseAll(v.value.otherCards) == Some(s.deck + s.hands[1 - p])
                  && ParseAll(v.value.playedCards) == Some(s.playedCards)
                  && ParseCard(v.value.target) == s.target
                  && |v.value.numCards| == 2
                  && v.value.numCards[0] == |s.hands[0]| && v.value.numCards[1] == |s.hands[1]|)
  {
    if GetState(s, p).Some? {
      Cards2ListAppend(s.deck, s.hands[1 - p]);
      ParseAllCards2List(s.hands[p]);
      ParseAllCards2List(s.deck + s.hands[1 - p]);
      ParseAllCards2List(s.playedCards);
      ParseCardStr(s.target.value);
    }
  }

  /** In a two-player round a player's own hand and the cards the player
      cannot see, with the played pile, are all the cards of the round. */
  lemma TwoPlayerViewCoversCards(s: RoundState, p: nat)
    requires Valid(s) && s.numPlayers == 2 && p < 2
    ensures multiset(s.hands[p]) + multiset(s.deck + s.hands[1 - p]) + multiset(s.playedCards) == Cards(s)
  {
    var h := s.hands;
    assert h[..1][..0] == [];
    assert Bag(h[..1]) == Bag(h[..1][..0]) + multiset(h[0]);
    assert Bag(h) == Bag(h[..1]) + multiset(h[1]);
    assert multiset(s.deck + h[1 - p]) == multiset(s.deck) + multiset(h[1 - p]);
  }
}
