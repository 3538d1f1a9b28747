/** UnoRound (rlcard/games/uno/round.py): the state of one round of UNO and
    the moves that change it.

    The dealer's deck and the players' hands, which round.py reaches through
    the `dealer` and `players` objects, are fields of the round here. The
    dealer deals by popping cards off the end of its deck, one at a time.
    Randomness (the first player, the colour given to a wild top card) comes
    in as parameters. */
module UnoRound {
  import opened Wrappers
  import opened UnoCards
  import opened UnoJudger
  import opened Planes

  /** An action string of the game: 'draw', 'pass', or a card's string (for
      a wild, the colour part is the colour chosen for it). */
  datatype Move = Draw | Pass | Play(card: Card)

  function MoveString(m: Move): string
  {
    match m
    case Draw => "draw"
    case Pass => "pass"
    case Play(c) => c.Str()
  }

  /** Everything UnoRound reads and writes, as one value. */
  datatype RoundState = RoundState(
    numPlayers: nat,
    currentPlayer: nat,
    direction: int,
    target: Option<Card>,
    playedCards: seq<Card>,
    isOver: bool,
    winner: Option<seq<nat>>,
    payoffs: seq<int>,
    action: Option<Move>,
    drawPlayer: Option<nat>,
    drawCard: Option<Card>,
    deck: seq<Card>,
    hands: seq<seq<Card>>)

  /** The shape every round keeps: the turn is a player, the direction is
      one step either way, one hand and one payoff per player, and winners
      are players. */
  predicate Valid(s: RoundState)
  {
    && s.numPlayers >= 1
    && s.currentPlayer < s.numPlayers
    && (s.direction == 1 || s.direction == -1)
    && |s.hands| == s.numPlayers
    && |s.payoffs| == s.numPlayers
    && (s.winner.Some? ==> forall i :: 0 <= i < |s.winner.value| ==> s.winner.value[i] < s.numPlayers)
  }

  // ------------------------------------------------------------ the cards

  function Bag(hands: seq<seq<Card>>): multiset<Card>
  {
    if hands == [] then multiset{} else Bag(hands[..|hands| - 1]) + multiset(hands[|hands| - 1])
  }

  /** Every card of the round: deck, hands and played pile. */
  function Cards(s: RoundState): multiset<Card>
  {
    multiset(s.deck) + Bag(s.hands) + multiset(s.playedCards)
  }

  // ------------------------------------------------------- turn and deal

  /** _perform_pass_action: one step in the current direction, wrapping
      around at either end. The source computes `(current + direction) %
      num_players`; NextPlayerMod shows the two agree on every player and
      direction a round holds. */
  function NextPlayer(cur: nat, dir: int, n: nat): (p: nat)
    requires cur < n && (dir == 1 || dir == -1)
    ensures p < n
    ensures 0 <= cur + dir < n ==> p == cur + dir
    ensures cur + dir == n ==> p == 0
    ensures cur + dir == -1 ==> p == n - 1
  {
    if cur + dir == n then 0
    else if cur + dir < 0 then n - 1
    else cur + dir
  }

  /** The step agrees with Python's `(current + direction) % num_players`
      (Python's % on a positive modulus is never negative, as Dafny's). */
  lemma NextPlayerMod(cur: nat, dir: int, n: nat)
    requires cur < n && (dir == 1 || dir == -1)
    ensures NextPlayer(cur, dir, n) == (cur + dir) % n
  {
    if cur + dir == n {
      assert (cur + dir) % n == n % n == 0;
    } else if cur + dir < 0 {
      assert cur + dir == -1;
      assert (-1) % n == n - 1 by {
        assert -1 == (-1) * n + (n - 1);
      }
    }
  }

  /** The k cards popped off the end of the deck, in the order popped. */
  function Popped(deck: seq<Card>, k: nat): (cards: seq<Card>)
    requires k <= |deck|
    ensures |cards| == k && forall i :: 0 <= i < k ==> cards[i] == deck[|deck| - 1 - i]
  {
    seq(k, i requires 0 <= i < k => deck[|deck| - 1 - i])
  }

  /** dealer.deal_cards(players[p], k). */
  function Deal(s: RoundState, p: nat, k: nat): RoundState
    requires p < |s.hands| && k <= |s.deck|
  {
    s.(deck := s.deck[..|s.deck| - k], hands := s.hands[p := s.hands[p] + Popped(s.deck, k)])
  }

  // ------------------------------------------------------ proceed_round

  /** The outcome of a move: whether Python raised, and the state it left. */
  datatype Proceeded = Proceeded(raised: bool, state: RoundState)

  /** How proceed_round finds the card to remove: a wild by its trait alone,
      any other card by colour and trait. */
  predicate Removes(card: Card, c: Card)
  {
    if c.face >= WILD then card.face == c.face else card == c
  }

  /** The index of the first card of the hand that the action removes. */
  function FindCard(hand: seq<Card>, c: Card): (i: Option<nat>)
    ensures i.Some? ==> i.value < |hand| && Removes(hand[i.value], c) &&
                        forall j :: 0 <= j < i.value ==> !Removes(hand[j], c)
    ensures i.None? <==> forall j :: 0 <= j < |hand| ==> !Removes(hand[j], c)
  {
    if hand == [] then None
    else if Removes(hand[0], c) then Some(0)
    else match FindCard(hand[1..], c)
      case None => None
      case Some(k) => Some(k + 1)
  }

  /** is_draw_available: the turn passes unless the drawn card matches the
      target's colour or trait, or is wild. */
  function DrawAvailable(s: RoundState, card: Card): RoundState
    requires Valid(s) && s.target.Some?
  {
    if card.color == s.target.value.color || card.face == s.target.value.face then s
    else if card.Type() == WildType then s
    else s.(currentPlayer := NextPlayer(s.currentPlayer, s.direction, s.numPlayers))
  }

  /** _perform_draw_action: an empty deck ends the game; otherwise the last
      card of the deck goes to the current hand. Python raises when there
      is no target yet to compare the card with. */
  function DrawCard(s: RoundState): Proceeded
    requires Valid(s)
  {
    if s.deck == [] then Proceeded(false, s.(isOver := true))
    else
      var card := s.deck[|s.deck| - 1];
      var s1 := s.(drawCard := Some(card), deck := s.deck[..|s.deck| - 1],
                   hands := s.hands[s.currentPlayer := s.hands[s.currentPlayer] + [card]]);
      if s1.target.None? then Proceeded(true, s1) else Proceeded(false, DrawAvailable(s1, card))
  }

  /** _preform_non_number_action: reverse turns the direction round, skip
      passes over the next player, draw_2 and wild_draw_4 deal 2 or 4 cards
      to the next player and pass over them (or end the game when the deck
      is short); then the turn moves on one step and the card becomes the
      target. */
  function NonNumber(s: RoundState, card: Card): RoundState
    requires Valid(s)
  {
    var n := s.numPlayers;
    var dir := s.direction;
    var next := NextPlayer(s.currentPlayer, dir, n);
    if card.face == REVERSE then
      s.(direction := -dir, currentPlayer := NextPlayer(s.currentPlayer, -dir, n), target := Some(card))
    else if card.face == SKIP then
      s.(currentPlayer := NextPlayer(next, dir, n), target := Some(card))
    else if card.face == DRAW_2 || card.face == WILD_DRAW_4 then
      var k := if card.face == DRAW_2 then 2 else 4;
      if |s.deck| < k then s.(isOver := true)
      else Deal(s, next, k).(currentPlayer := NextPlayer(next, dir, n), target := Some(card))
    else
      s.(currentPlayer := next, target := Some(card))
  }

  /** proceed_round: record the action, then draw, pass, or play a card.
      Playing a card the hand does not hold makes `pop(None)` raise. */
  function Proceed(s: RoundState, m: Move): Proceeded
    requires Valid(s)
  {
    var s0 := s.(action := Some(m));
    match m
    case Draw => DrawCard(s0.(drawPlayer := Some(s.currentPlayer)))
    case Pass => Proceeded(false, s0.(currentPlayer := NextPlayer(s.currentPlayer, s.direction, s.numPlayers)))
    case Play(c) => PlayCard(s0, c)
  }

  /** The first half of the card branch of proceed_round: card i leaves the
      current hand for the played pile, and an emptied hand ends the round
      with the current player as the winner. */
  function Removed(s: RoundState, i: nat): (r: RoundState)
    requires Valid(s) && i < |s.hands[s.currentPlayer]|
    ensures Valid(r)
  {
    var cur := s.currentPlayer;
    var hand := s.hands[cur];
    var rest := hand[..i] + hand[i + 1..];
    var s1 := s.(hands := s.hands[cur := rest], playedCards := s.playedCards + [hand[i]]);
    if rest == [] then s1.(isOver := true, winner := Some([cur])) else s1
  }

  /** The card a play puts down: a wild takes the action's colour. */
  function Played(card: Card, c: Card): Card
  {
    if card.Type() == WildType then Card(c.color, card.face) else card
  }

  /** The second half: a number card becomes the target and passes the
      turn; any other card goes through NonNumber. */
  function CardEffect(s: RoundState, card: Card, c: Card): RoundState
    requires Valid(s)
  {
    if card.Type() == Number then
      s.(currentPlayer := NextPlayer(s.currentPlayer, s.direction, s.numPlayers), target := Some(card))
    else NonNumber(s, Played(card, c))
  }

  /** The card branch of proceed_round: the first matching card is removed
      and played; Python raises when no card matches (`pop(None)`). */
  function PlayCard(s: RoundState, c: Card): Proceeded
    requires Valid(s)
  {
    match FindCard(s.hands[s.currentPlayer], c)
    case None => Proceeded(true, s)
    case Some(i) => Proceeded(false, CardEffect(Removed(s, i), s.hands[s.currentPlayer][i], c))
  }

  // ------------------------------------------------ flip and perform top

  /** flip_top_card: a plain wild on top takes the given colour; the card
      becomes the target and goes on the played pile. */
  function FlipTop(s: RoundState, top: Card, color: Color): RoundState
  {
    var t := if top.face == WILD then Card(color, top.face) else top;
    s.(target := Some(t), playedCards := s.playedCards + [t])
  }

  /** perform_top_card: a skip passes the first turn on, a reverse sets the
      direction to -1 and passes the turn, a draw_2 deals two cards to the
      first player and passes the turn. */
  function PerformTop(s: RoundState, top: Card): RoundState
    requires Valid(s) && (top.face == DRAW_2 ==> |s.deck| >= 2)
  {
    var n := s.numPlayers;
    var s1 := if top.face == SKIP then s.(currentPlayer := NextPlayer(s.currentPlayer, s.direction, n)) else s;
    if top.face == REVERSE then
      s1.(direction := -1, currentPlayer := NextPlayer(s1.currentPlayer, -1, n))
    else if top.face == DRAW_2 then
      var d := Deal(s1, s1.currentPlayer, 2);
      d.(currentPlayer := NextPlayer(d.currentPlayer, d.direction, n))
    else s1
  }

  // ---------------------------------------------------- get_legal_actions

  /** The four colour variants of a wild trait (the WILD and WILD_DRAW_4 lists). */
  function WildGroup(f: Trait): seq<Move>
  {
    [Play(Card(Red, f)), Play(Card(Green, f)), Play(Card(Blue, f)), Play(Card(Yellow, f))]
  }

  /** A non-wild card may follow the target when it has the target's colour,
      or, when the target is not wild, the target's trait. */
  predicate Follows(card: Card, target: Card)
  {
    if target.Type() == WildType then card.color == target.color
    else card.color == target.color || card.face == target.face
  }

  /** The loop of get_legal_actions over the hand: each wild group is added
      the first time its trait turns up, and each following card is added
      as it comes. */
  function ScanHand(hand: seq<Card>, target: Card, wildSeen: bool, wild4Seen: bool): seq<Move>
  {
    if hand == [] then []
    else
      var card := hand[0];
      if card.Type() == WildType then
        if card.face == WILD_DRAW_4 then
          if wild4Seen then ScanHand(hand[1..], target, wildSeen, true)
          else WildGroup(WILD_DRAW_4) + ScanHand(hand[1..], target, wildSeen, true)
        else
          if wildSeen then ScanHand(hand[1..], target, true, wild4Seen)
          else WildGroup(WILD) + ScanHand(hand[1..], target, true, wild4Seen)
      else if Follows(card, target) then [Play(card)] + ScanHand(hand[1..], target, wildSeen, wild4Seen)
      else ScanHand(hand[1..], target, wildSeen, wild4Seen)
  }

  /** The options right after drawing: the drawn card (all colours of a
      wild), then 'pass'. */
  function AfterDraw(drawn: Card): seq<Move>
  {
    (if drawn.face == WILD_DRAW_4 then WildGroup(WILD_DRAW_4)
     else if drawn.face == WILD then WildGroup(WILD)
     else [Play(drawn)]) + [Pass]
  }

  /** True when the current player has just drawn (the test get_legal_actions
      makes, on the current player rather than the player asked about). */
  predicate JustDrew(s: RoundState)
  {
    s.action == Some(Draw) && s.drawPlayer == Some(s.currentPlayer)
  }

  /** get_legal_actions; None where Python reads a field of a missing card. */
  function LegalActions(s: RoundState, playerId: nat): Option<seq<Move>>
    requires Valid(s) && playerId < s.numPlayers
  {
    if JustDrew(s) then
      var drawn :- s.drawCard;
      Some(AfterDraw(drawn))
    else
      var target :- s.target;
      Some(ScanHand(s.hands[playerId], target, false, false) + [Draw])
  }

  // ------------------------------------------------- scores and payoffs

  /** What count_hand_score adds for one card. */
  function Points(c: Card): nat
  {
    match c.Type()
    case Number => c.face
    case Action => 20
    case WildType => 50
  }

  function PointsOf(cards: seq<Card>): nat
  {
    if cards == [] then 0 else PointsOf(cards[..|cards| - 1]) + Points(cards[|cards| - 1])
  }

  /** count_hand_score: minus the points of the cards. */
  function HandScore(cards: seq<Card>): int
  {
    -(PointsOf(cards) as int)
  }

  function Sum(xs: seq<int>): int
  {
    if xs == [] then 0 else Sum(xs[..|xs| - 1]) + xs[|xs| - 1]
  }

  function Scores(hands: seq<seq<Card>>): (scores: seq<int>)
    ensures |scores| == |hands| && forall i :: 0 <= i < |hands| ==> scores[i] == HandScore(hands[i])
  {
    seq(|hands|, i requires 0 <= i < |hands| => HandScore(hands[i]))
  }

  /** The loop `for i in winner: payoffs[i] += bonus`. */
  function AddTo(payoffs: seq<int>, ids: seq<nat>, bonus: int): (r: seq<int>)
    requires forall i :: 0 <= i < |ids| ==> ids[i] < |payoffs|
    ensures |r| == |payoffs|
    decreases |ids|
  {
    if ids == [] then payoffs
    else AddTo(payoffs[ids[0] := payoffs[ids[0]] + bonus], ids[1..], bonus)
  }

  /** get_payoffs: every payoff becomes its hand's score; with no winner
      yet, judge_winner picks one from the first two scores; each winner
      then also receives minus the sum of all scores. No winner after
      judging (a tie) makes the loop over None raise, as does judging with
      fewer than two players. */
  function Payoffs(s: RoundState): Proceeded
    requires Valid(s)
  {
    var scores := Scores(s.hands);
    var bonus := -Sum(scores);
    var s1 := s.(payoffs := scores);
    if s.winner.None? && |scores| < 2 then Proceeded(true, s1)
    else
      var winner := if s.winner.Some? then s.winner else JudgeWinner(scores);
      match winner
      case None => Proceeded(true, s1)
      case Some(ids) =>
        assert forall i :: 0 <= i < |ids| ==> ids[i] < |scores| by {
          if s.winner.None? {
            assert ids == [0] || ids == [1];
          }
        }
        Proceeded(false, s1.(winner := winner, payoffs := AddTo(scores, ids, bonus)))
  }

  // ------------------------------------------------------------ get_state

  /** The state dictionary get_state builds for one player. */
  datatype PlayerView = PlayerView(
    hand: seq<string>,
    target: string,
    otherCards: seq<string>,
    playedCards: seq<string>,
    legalActions: seq<string>,
    numCards: seq<nat>)

  /** get_state: the player's hand, the target, the cards the player cannot
      see (the deck, then the opponent `players[1 - player_id]`'s hand), the
      played pile, the legal actions and every hand's size. */
  function GetState(s: RoundState, playerId: nat): Option<PlayerView>
    requires Valid(s) && playerId < s.numPlayers
  {
    var opponent :- PyIndex(1 - playerId, |s.hands|);
    var target :- s.target;
    var legal :- LegalActions(s, playerId);
    Some(PlayerView(
      Cards2List(s.hands[playerId]),
      target.Str(),
      Cards2List(s.deck) + Cards2List(s.hands[opponent]),
      Cards2List(s.playedCards),
      seq(|legal|, i requires 0 <= i < |legal| => MoveString(legal[i])),
      seq(|s.hands|, i requires 0 <= i < |s.hands| => |s.hands[i]|)))
  }

  // ------------------------------------------------------------ the class

  /** UnoRound with its fields; each method changes them as round.py does. */
  class Round {
    const numPlayers: nat
    var currentPlayer: nat
    var direction: int
    var target: Option<Card>
    var playedCards: seq<Card>
    var isOver: bool
    var winner: Option<seq<nat>>
    var payoffs: seq<int>
    var action: Option<Move>
    var drawPlayer: Option<nat>
    var drawCard: Option<Card>
    var deck: seq<Card>
    var hands: seq<seq<Card>>

    function State(): RoundState
      reads this
    {
      RoundState(numPlayers, currentPlayer, direction, target, playedCards, isOver, winner,
                 payoffs, action, drawPlayer, drawCard, deck, hands)
    }

    /** __init__, with the randomly drawn first player as a parameter and the
        dealer's deck and the players' hands as they stand. */
    constructor (n: nat, firstPlayer: nat, initialDeck: seq<Card>, initialHands: seq<seq<Card>>)
      requires n >= 1 && firstPlayer < n && |initialHands| == n
      ensures Valid(State())
      ensures State() == RoundState(n, firstPlayer, 1, None, [], false, None, seq(n, _ => 0),
                                    None, None, None, initialDeck, initialHands)
    {
      numPlayers := n;
      currentPlayer := firstPlayer;
      direction := 1;
      target := None;
      playedCards := [];
      isOver := false;
      winner := None;
      payoffs := seq(n, _ => 0);
      action := None;
      drawPlayer := None;
      drawCard := None;
      deck := initialDeck;
      hands := initialHands;
    }

    /** flip_top_card, with the dealer's top card and the random colour as
        parameters. */
    method FlipTopCard(top: Card, color: Color) returns (t: Card)
      requires Valid(State())
      modifies this
      ensures Valid(State()) && State() == FlipTop(old(State()), top, color)
      ensures State().target == Some(t)
    {
      t := top;
      if top.face == WILD {
        t := Card(color, top.face);
      }
      target := Some(t);
      playedCards := playedCards + [t];
    }

    /** dealer.deal_cards: pop k cards off the deck onto player p's hand. */
    method DealCards(p: nat, k: nat)
      requires Valid(State()) && p < numPlayers && k <= |deck|
      modifies this
      ensures Valid(State()) && State() == Deal(old(State()), p, k)
    {
      ghost var deck0 := deck;
      ghost var hand0 := hands[p];
      assert Popped(deck0, 0) == [] && hand0 + [] == hand0;
      assert hands == old(hands)[p := hand0 + Popped(deck0, 0)];
      for i := 0 to k
        invariant Valid(State())
        invariant deck == deck0[..|deck0| - i]
        invariant hands == old(hands)[p := hand0 + Popped(deck0, i)]
        invariant State() == old(State()).(deck := deck, hands := hands)
      {
        var card := deck[|deck| - 1];
        deck := deck[..|deck| - 1];
        assert Popped(deck0, i + 1) == Popped(deck0, i) + [card];
        hands := hands[p := hands[p] + [card]];
        assert hands[p] == hand0 + Popped(deck0, i + 1);
      }
    }

    /** The loop of proceed_round that looks for the card to remove. */
    static method FindRemoveIndex(hand: seq<Card>, c: Card) returns (removeIndex: Option<nat>)
      ensures removeIndex == FindCard(hand, c)
    {
      removeIndex := None;
      var index := 0;
      while index < |hand|
        invariant index <= |hand|
        invariant forall j :: 0 <= j < index ==> !Removes(hand[j], c)
      {
        if Removes(hand[index], c) {
          removeIndex := Some(index);
          FindCardFirst(hand, c, index);
          return;
        }
        index := index + 1;
      }
    }

    /** is_draw_available. */
    method IsDrawAvailable(card: Card)
      requires Valid(State()) && target.Some?
      modifies this
      ensures Valid(State()) && State() == DrawAvailable(old(State()), card)
    {
      if card.color == target.value.color || card.face == target.value.face {
        return;
      } else if card.Type() == WildType {
        return;
      }
      currentPlayer := NextPlayer(currentPlayer, direction, numPlayers);
    }

    /** _perform_draw_action; `raised` where Python fails on a missing target. */
    method PerformDrawAction() returns (raised: bool)
      requires Valid(State())
      modifies this
      ensures Valid(State())
      ensures raised == DrawCard(old(State())).raised && State() == DrawCard(old(State())).state
    {
      if deck == [] {
        isOver := true;
        return false;
      }
      var card := deck[|deck| - 1];
      drawCard := Some(card);
      deck := deck[..|deck| - 1];
      hands := hands[currentPlayer := hands[currentPlayer] + [card]];
      if target.None? {
        return true;
      }
      IsDrawAvailable(card);
      raised := false;
    }

    /** _preform_non_number_action. */
    method PerformNonNumberAction(card: Card)
      requires Valid(State())
      modifies this
      ensures Valid(State()) && State() == NonNumber(old(State()), card)
    {
      var current := currentPlayer;
      var dir := direction;
      var n := numPlayers;
      if card.face == REVERSE {
        direction := -1 * dir;
      } else if card.face == SKIP {
        current := NextPlayer(current, dir, n);
      } else if card.face == DRAW_2 {
        if |deck| < 2 {
          isOver := true;
          return;
        }
        DealCards(NextPlayer(current, dir, n), 2);
        current := NextPlayer(current, dir, n);
      } else if card.face == WILD_DRAW_4 {
        if |deck| < 4 {
          isOver := true;
          return;
        }
        DealCards(NextPlayer(current, dir, n), 4);
        current := NextPlayer(current, dir, n);
      }
      currentPlayer := NextPlayer(current, direction, n);
      target := Some(card);
    }

    /** proceed_round; `raised` where `pop(None)` (no such card in the hand)
        or a missing target makes Python raise. */
    method ProceedRound(m: Move) returns (raised: bool)
      requires Valid(State())
      modifies this
      ensures Valid(State())
      ensures raised == Proceed(old(State()), m).raised && State() == Proceed(old(State()), m).state
    {
      action := Some(m);
      match m {
        case Draw =>
          drawPlayer := Some(currentPlayer);
          raised := PerformDrawAction();
        case Pass =>
          currentPlayer := NextPlayer(currentPlayer, direction, numPlayers);
          raised := false;
        case Play(c) =>
          raised := PlayCardAction(c);
      }
    }

    /** The card branch of proceed_round. */
    method PlayCardAction(c: Card) returns (raised: bool)
      requires Valid(State())
      modifies this
      ensures Valid(State())
      ensures raised == PlayCard(old(State()), c).raised && State() == PlayCard(old(State()), c).state
    {
      var removeIndex := FindRemoveIndex(hands[currentPlayer], c);
      if removeIndex.None? {
        return true;
      }
      var card := RemoveAt(removeIndex.value);
      ApplyEffect(card, c);
      raised := false;
    }

    /** The card leaves the current hand for the played pile; an emptied
        hand ends the game with its player as the winner. */
    method RemoveAt(i: nat) returns (card: Card)
      requires Valid(State()) && i < |hands[currentPlayer]|
      modifies this
      ensures card == old(hands[currentPlayer][i])
      ensures Valid(State()) && State() == Removed(old(State()), i)
    {
      var hand := hands[currentPlayer];
      card := hand[i];
      hands := hands[currentPlayer := hand[..i] + hand[i + 1..]];
      if hands[currentPlayer] == [] {
        isOver := true;
        winner := Some([currentPlayer]);
      }
      playedCards := playedCards + [card];
    }

    /** A number card becomes the target and passes the turn; any other
        card goes through perform_non_number_action, a wild with the
        action's colour. */
    method ApplyEffect(card: Card, c: Card)
      requires Valid(State())
      modifies this
      ensures Valid(State()) && State() == CardEffect(old(State()), card, c)
    {
      if card.Type() == Number {
        currentPlayer := NextPlayer(currentPlayer, direction, numPlayers);
        target := Some(card);
      } else if card.Type() == WildType {
        PerformNonNumberAction(Card(c.color, card.face));
      } else {
        PerformNonNumberAction(card);
      }
    }

    /** perform_top_card; the dealer must hold the two cards a draw_2 deals. */
    method PerformTopCard(top: Card)
      requires Valid(State()) && (top.face == DRAW_2 ==> |deck| >= 2)
      modifies this
      ensures Valid(State()) && State() == PerformTop(old(State()), top)
    {
      if top.face == SKIP {
        currentPlayer := NextPlayer(currentPlayer, direction, numPlayers);
      }
      if top.face == REVERSE {
        direction := -1;
        currentPlayer := NextPlayer(currentPlayer, direction, numPlayers);
      } else if top.face == DRAW_2 {
        DealCards(currentPlayer, 2);
        currentPlayer := NextPlayer(currentPlayer, direction, numPlayers);
      }
    }

    /** get_payoffs; None where Python raises on a missing winner. */
    method GetPayoffs() returns (r: Option<seq<int>>)
      requires Valid(State())
      modifies this
      ensures Valid(State()) && State() == Payoffs(old(State())).state
      ensures r == if Payoffs(old(State())).raised then None else Some(payoffs)
    {
      var winnerPayoffs := ScoreHands();
      if winner.None? {
        if numPlayers < 2 {
          return None;
        }
        winner := JudgeWinner(payoffs);
      }
      if winner.None? {
        return None;
      }
      AddWinnerPayoffs(winner.value, winnerPayoffs);
      r := Some(payoffs);
    }

    /** The scoring loop of get_payoffs: each payoff becomes its hand's
        score, and the winners' share is minus their sum. */
    method ScoreHands() returns (winnerPayoffs: int)
      requires Valid(State())
      modifies this
      ensures Valid(State()) && State() == old(State()).(payoffs := Scores(hands))
      ensures winnerPayoffs == -Sum(Scores(hands))
    {
      winnerPayoffs := 0;
      ghost var scores := Scores(hands);
      for index := 0 to numPlayers
        invariant Valid(State())
        invariant State() == old(State()).(payoffs := payoffs)
        invariant payoffs[..index] == scores[..index]
        invariant winnerPayoffs == -Sum(scores[..index])
      {
        var playerScore := HandScore(hands[index]);
        SetPayoff(index, playerScore);
        winnerPayoffs := winnerPayoffs + -playerScore;
        assert scores[..index + 1][..index] == scores[..index];
      }
      assert payoffs == payoffs[..numPlayers];
      assert scores == scores[..numPlayers];
    }

    /** One step of the scoring loop: `self.payoffs[index] = score`. */
    method SetPayoff(index: nat, score: int)
      requires Valid(State()) && index < numPlayers
      modifies this
      ensures Valid(State()) && State() == old(State()).(payoffs := old(payoffs)[index := score])
    {
      payoffs := payoffs[index := score];
    }

    /** The loop of get_payoffs that adds the winners' share. */
    method AddWinnerPayoffs(ids: seq<nat>, bonus: int)
      requires Valid(State()) && forall i :: 0 <= i < |ids| ==> ids[i] < numPlayers
      modifies this
      ensures Valid(State()) && State() == old(State()).(payoffs := AddTo(old(payoffs), ids, bonus))
    {
      for j := 0 to |ids|
        invariant Valid(State())
        invariant State() == old(State()).(payoffs := payoffs)
        invariant AddTo(payoffs, ids[j..], bonus) == AddTo(old(payoffs), ids, bonus)
      {
        assert ids[j..][1..] == ids[j + 1..];
        payoffs := payoffs[ids[j] := payoffs[ids[j]] + bonus];
      }
      assert ids[|ids|..] == [];
    }
  }

  /** The index FindRemoveIndex stops at is FindCard's. */
  lemma {:induction false} FindCardFirst(hand: seq<Card>, c: Card, i: nat)
    requires i < |hand| && Removes(hand[i], c)
    requires forall j :: 0 <= j < i ==> !Removes(hand[j], c)
    ensures FindCard(hand, c) == Some(i)
  {
    if i > 0 {
      FindCardFirst(hand[1..], c, i - 1);
    }
  }
}
