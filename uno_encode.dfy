/** The fixed-length integer encodings of rlcard/games/uno/utils.py: the
    target card, one action, a sequence of 8 or 12 actions, a count as a
    one-hot array, the player's hand and the cards the player cannot see.

    Each encoder returns None where the Python code raises. */
module UnoEncode {
  import opened Wrappers
  import opened UnoCards
  import opened Planes

  /** Position of a card in a 4 x 15 plane: colour row, trait column. */
  function CardIndex(c: Card): (k: nat)
    ensures k < 60
  {
    ColorIndex(c.color) * 15 + c.face
  }

  lemma CardIndexInjective(c: Card, d: Card)
    ensures CardIndex(c) == CardIndex(d) <==> c == d
  {
    if CardIndex(c) == CardIndex(d) {
      assert ColorIndex(c.color) == ColorIndex(d.color);
      assert Colors[ColorIndex(c.color)] == c.color;
    }
  }

  /** `plane[color][trait] = 1` on a fresh 4 x 15 plane, flattened. */
  function CardPlane(c: Card): (v: seq<int>)
    ensures |v| == 60 && OneHot(v, CardIndex(c))
  {
    var plane := ZeroPlane(4, 15);
    var row := ColorIndex(c.color);
    OneHotPlane(4, 15, row, c.face);
    Flatten(plane[row := plane[row][c.face := 1]])
  }

  // ----------------------------------------------------------- encode_target

  /** encode_target: 60 entries with a single 1 where the target card sits. */
  function EncodeTarget(target: string): (r: Option<seq<int>>)
    ensures r.Some? <==> ParseCard(target).Some?
    ensures r.Some? ==> |r.value| == 60 && OneHot(r.value, CardIndex(ParseCard(target).value))
  {
    var card :- ParseCard(target);
    Some(CardPlane(card))
  }

  /** A card's own string encodes to a one-hot vector at its place, and two
      different cards never share an encoding. */
  lemma EncodeTargetCard(c: Card, d: Card)
    ensures EncodeTarget(c.Str()).Some? && OneHot(EncodeTarget(c.Str()).value, CardIndex(c))
    ensures c != d ==> EncodeTarget(c.Str()) != EncodeTarget(d.Str())
  {
    ParseCardStr(c);
    ParseCardStr(d);
    if c != d {
      CardIndexInjective(c, d);
      OneHotDistinct(CardPlane(c), CardPlane(d), CardIndex(c), CardIndex(d));
    }
  }

  // ----------------------------------------------------------- encode_action

  const ACTION_SIZE: nat := 63
  const DRAW_INDEX: nat := 60
  const QUERY_INDEX: nat := 61
  const PASS_INDEX: nat := 62

  /** encode_action: a 4 x 15 card plane followed by three flags for draw,
      query and pass; the empty action is all zeros. */
  function EncodeAction(action: string): (r: Option<seq<int>>)
    ensures r.Some? <==> action in {"", "draw", "query", "pass"} || ParseCard(action).Some?
    ensures r.Some? ==> |r.value| == ACTION_SIZE
    ensures action == "" ==> r == Some(Zeros(ACTION_SIZE))
    ensures action == "draw" ==> OneHot(r.value, DRAW_INDEX)
    ensures action == "query" ==> OneHot(r.value, QUERY_INDEX)
    ensures action == "pass" ==> OneHot(r.value, PASS_INDEX)
    ensures action !in {"", "draw", "query", "pass"} && r.Some? ==>
              OneHot(r.value, CardIndex(ParseCard(action).value))
  {
    if action == "" then Some(Zeros(ACTION_SIZE))
    else
      var plane := Flatten(ZeroPlane(4, 15));
      ZeroPlaneFlat(4, 15);
      var other := Zeros(3);
      if action == "draw" then
        OneHotAfterZeros(plane, other[0 := 1], 0);
        Some(plane + other[0 := 1])
      else if action == "query" then
        OneHotAfterZeros(plane, other[1 := 1], 1);
        Some(plane + other[1 := 1])
      else if action == "pass" then
        OneHotAfterZeros(plane, other[2 := 1], 2);
        Some(plane + other[2 := 1])
      else
        var card :- ParseCard(action);
        OneHotBeforeZeros(CardPlane(card), other, CardIndex(card));
        Some(CardPlane(card) + other)
  }

  /** The actions the game produces: none yet, draw, query, pass, or a card. */
  datatype GameAction = NoAction | DrawAction | QueryAction | PassAction | CardAction(card: Card)

  function ActionString(a: GameAction): string
  {
    match a
    case NoAction => ""
    case DrawAction => "draw"
    case QueryAction => "query"
    case PassAction => "pass"
    case CardAction(c) => c.Str()
  }

  /** Where an action's single 1 sits in its encoding (none for NoAction). */
  function ActionIndex(a: GameAction): nat
    requires a != NoAction
  {
    match a
    case DrawAction => DRAW_INDEX
    case QueryAction => QUERY_INDEX
    case PassAction => PASS_INDEX
    case CardAction(c) => CardIndex(c)
  }

  /** Every action the game produces has an encoding, and two different
      actions never share one: the encoding loses nothing. */
  lemma EncodeActionInjective(a: GameAction, b: GameAction)
    ensures EncodeAction(ActionString(a)).Some?
    ensures a != NoAction ==> OneHot(EncodeAction(ActionString(a)).value, ActionIndex(a))
    ensures a != b ==> EncodeAction(ActionString(a)) != EncodeAction(ActionString(b))
  {
    CardStringIsNotKeyword(a);
    CardStringIsNotKeyword(b);
    if a != b {
      var va, vb := EncodeAction(ActionString(a)).value, EncodeAction(ActionString(b)).value;
      if a == NoAction {
        OneHotDistinct(vb, vb, ActionIndex(b), ActionIndex(b));
      } else if b == NoAction {
        OneHotDistinct(va, va, ActionIndex(a), ActionIndex(a));
      } else {
        if a.CardAction? && b.CardAction? {
          CardIndexInjective(a.card, b.card);
        }
        OneHotDistinct(va, vb, ActionIndex(a), ActionIndex(b));
      }
    }
  }

  lemma CardStringIsNotKeyword(a: GameAction)
    ensures a.CardAction? ==> ActionString(a) !in {"", "draw", "query", "pass"}
    ensures a.CardAction? ==> ParseCard(ActionString(a)) == Some(a.card)
  {
    if a.CardAction? {
      ParseCardStr(a.card);
      assert ActionString(a)[1] == '-';
    }
  }

  // ------------------------------------------------------ get_one_hot_array

  /** get_one_hot_array: `max_num_cards` entries with one 1 for the number of
      cards left, the last entry standing for "max or more". */
  function GetOneHotArray(numLeftCards: int, maxNumCards: int): (r: Option<seq<int>>)
    ensures r.Some? <==> maxNumCards >= 1 && numLeftCards >= 1 - maxNumCards
    ensures r.Some? ==> |r.value| == maxNumCards
    ensures r.Some? && 1 <= numLeftCards ==>
              OneHot(r.value, (if numLeftCards < maxNumCards then numLeftCards else maxNumCards) - 1)
    ensures r.Some? && numLeftCards == 0 ==> OneHot(r.value, maxNumCards - 1)
  {
    if maxNumCards < 0 then None
    else if numLeftCards > maxNumCards then OneHotAt(maxNumCards, maxNumCards - 1)
    else OneHotAt(maxNumCards, numLeftCards - 1)
  }

  // -------------------------------------------- encode_action_sequence_8/_12

  /** The buffer of the (len(action_list), 63) plane once every row holds its
      action's encoding: the encodings one after another. */
  function EncodedActions(actions: seq<string>): (r: Option<seq<int>>)
    ensures r.Some? <==> forall i :: 0 <= i < |actions| ==> EncodeAction(actions[i]).Some?
    ensures r.Some? ==> |r.value| == ACTION_SIZE * |actions|
  {
    if actions == [] then Some([])
    else
      var front :- EncodedActions(actions[..|actions| - 1]);
      var last :- EncodeAction(actions[|actions| - 1]);
      Some(front + last)
  }

  /** Entry j of row k of the plane is entry j of action k's encoding. */
  lemma {:induction false} EncodedActionsAt(actions: seq<string>, k: nat, j: nat)
    requires EncodedActions(actions).Some? && k < |actions| && j < ACTION_SIZE
    ensures EncodedActions(actions).value[ACTION_SIZE * k + j] == EncodeAction(actions[k]).value[j]
  {
    var n := |actions|;
    if k < n - 1 {
      EncodedActionsAt(actions[..n - 1], k, j);
      assert actions[..n - 1][k] == actions[k];
    }
  }

  /** The row loop of encode_action_sequence_*: a fresh zero buffer for the
      plane, each row overwritten with its action's encoding. */
  method FillActionPlane(actions: seq<string>) returns (flat: Option<seq<int>>)
    ensures flat == EncodedActions(actions)
  {
    var plane := new int[ACTION_SIZE * |actions|](_ => 0);
    for row := 0 to |actions|
      invariant EncodedActions(actions[..row]).Some?
      invariant plane[..ACTION_SIZE * row] == EncodedActions(actions[..row]).value
    {
      var enc := EncodeAction(actions[row]);
      if enc.None? {
        assert EncodedActions(actions).None?;
        return None;
      }
      ghost var before := plane[..];
      forall j | 0 <= j < ACTION_SIZE {
        plane[ACTION_SIZE * row + j] := enc.value[j];
      }
      assert actions[..row + 1][..row] == actions[..row];
      assert plane[..ACTION_SIZE * row] == before[..ACTION_SIZE * row];
      assert plane[ACTION_SIZE * row .. ACTION_SIZE * (row + 1)] == enc.value;
      assert plane[..ACTION_SIZE * (row + 1)] ==
             plane[..ACTION_SIZE * row] + plane[ACTION_SIZE * row .. ACTION_SIZE * (row + 1)];
    }
    assert actions[..|actions|] == actions;
    assert plane[..] == plane[..ACTION_SIZE * |actions|];
    return Some(plane[..]);
  }

  /** encode_action_sequence_8: eight actions as a 4 x 126 plane, row i
      holding actions 2i and 2i + 1; any other number of actions makes the
      reshape raise. */
  method EncodeActionSequence8(actions: seq<string>) returns (r: Option<seq<seq<int>>>)
    ensures r.Some? <==> |actions| == 8 && forall i :: 0 <= i < 8 ==> EncodeAction(actions[i]).Some?
    ensures r.Some? ==> |r.value| == 4 && forall i :: 0 <= i < 4 ==> |r.value[i]| == 126
    ensures r.Some? ==> forall i, j :: 0 <= i < 4 && 0 <= j < 126 ==>
              r.value[i][j] == EncodeAction(actions[2 * i + j / 63]).value[j % 63]
  {
    var flat := FillActionPlane(actions);
    if flat.None? || |actions| != 8 {
      return None;
    }
    var v := flat.value;
    r := Some(seq(4, i requires 0 <= i < 4 => v[126 * i .. 126 * i + 126]));
    forall i, j | 0 <= i < 4 && 0 <= j < 126
      ensures r.value[i][j] == EncodeAction(actions[2 * i + j / 63]).value[j % 63]
    {
      EncodedActionsAt(actions, 2 * i + j / 63, j % 63);
    }
  }

  /** encode_action_sequence_12: twelve actions as a 3 x 252 plane, row i
      holding actions 4i to 4i + 3. */
  method EncodeActionSequence12(actions: seq<string>) returns (r: Option<seq<seq<int>>>)
    ensures r.Some? <==> |actions| == 12 && forall i :: 0 <= i < 12 ==> EncodeAction(actions[i]).Some?
    ensures r.Some? ==> |r.value| == 3 && forall i :: 0 <= i < 3 ==> |r.value[i]| == 252
    ensures r.Some? ==> forall i, j :: 0 <= i < 3 && 0 <= j < 252 ==>
              r.value[i][j] == EncodeAction(actions[4 * i + j / 63]).value[j % 63]
  {
    var flat := FillActionPlane(actions);
    if flat.None? || |actions| != 12 {
      return None;
    }
    var v := flat.value;
    r := Some(seq(3, i requires 0 <= i < 3 => v[252 * i .. 252 * i + 252]));
    forall i, j | 0 <= i < 3 && 0 <= j < 252
      ensures r.value[i][j] == EncodeAction(actions[4 * i + j / 63]).value[j % 63]
    {
      EncodedActionsAt(actions, 4 * i + j / 63, j % 63);
    }
  }
}
