/** The UNO rule agent of rlcard/models/uno_rule_v2.py: it drops 'draw'
    from the legal actions, counts the colours of the non-wild cards in
    hand, and plays an action of the most frequent colour. Each filter
    falls back to its whole input when it would leave nothing.

    Cards and actions are their strings. The random choice of
    `np.random.choice` is the parameter `pick`. */
module UnoRuleAgent {
  import opened Wrappers
  import opened UnoCards

  // ------------------------------------------------------ list filtering

  /** The elements of s that satisfy keep, in their order (the loop that
      appends to a fresh list). */
  function Keep<T>(s: seq<T>, keep: T -> bool): seq<T>
  {
    if s == [] then [] else (if keep(s[0]) then [s[0]] else []) + Keep(s[1..], keep)
  }

  /** The filter with its fallback: the whole input when nothing is kept. */
  function Fallback<T>(s: seq<T>, keep: T -> bool): seq<T>
  {
    if Keep(s, keep) == [] then s else Keep(s, keep)
  }

  /** a is s with some elements left out, the rest in their order. */
  predicate IsSubsequence<T(==)>(a: seq<T>, s: seq<T>)
    decreases |s|
  {
    if a == [] then true
    else if s == [] then false
    else if a[0] == s[0] then IsSubsequence(a[1..], s[1..])
    else IsSubsequence(a, s[1..])
  }

  lemma {:induction false} SubsequenceOfSelf<T>(s: seq<T>)
    ensures IsSubsequence(s, s)
    decreases |s|
  {
    if s != [] {
      SubsequenceOfSelf(s[1..]);
    }
  }

  /** Keep leaves an order-preserving subsequence whose elements are exactly
      the elements of s that satisfy keep, each as often as in s. */
  lemma {:induction false} KeepSpec<T>(s: seq<T>, keep: T -> bool)
    ensures IsSubsequence(Keep(s, keep), s)
    ensures forall x :: multiset(Keep(s, keep))[x] == if keep(x) then multiset(s)[x] else 0
    ensures forall x :: x in Keep(s, keep) ==> x in s && keep(x)
    ensures forall x :: x in s && keep(x) ==> x in Keep(s, keep)
    decreases |s|
  {
    if s != [] {
      KeepSpec(s[1..], keep);
      var rest := Keep(s[1..], keep);
      assert s == [s[0]] + s[1..];
      if keep(s[0]) {
        assert Keep(s, keep) == [s[0]] + rest;
        assert Keep(s, keep)[1..] == rest;
      } else {
        assert Keep(s, keep) == rest;
        SkipHead(rest, s);
      }
    }
  }

  /** A subsequence of s[1..] is one of s. */
  lemma {:induction false} SkipHead<T>(a: seq<T>, s: seq<T>)
    requires s != [] && IsSubsequence(a, s[1..])
    ensures IsSubsequence(a, s)
    decreases |s|, |a|
  {
    if a != [] && a[0] == s[0] {
      SubsequenceTail(a, s[1..]);
    }
  }

  /** Dropping the head of a subsequence leaves a subsequence. */
  lemma {:induction false} SubsequenceTail<T>(a: seq<T>, s: seq<T>)
    requires a != [] && IsSubsequence(a, s)
    ensures IsSubsequence(a[1..], s)
    decreases |s|, |a|
  {
    if a[0] != s[0] {
      SubsequenceTail(a, s[1..]);
      SkipHead(a[1..], s);
    } else if a[1..] != [] {
      SkipHead(a[1..], s);
    }
  }

  /** Every filter with a fallback gives an order-preserving subsequence of
      its input, non-empty when the input is; it is exactly the kept
      elements when some element is kept, and the input otherwise. */
  lemma FallbackSpec<T>(s: seq<T>, keep: T -> bool)
    ensures IsSubsequence(Fallback(s, keep), s)
    ensures s != [] ==> Fallback(s, keep) != []
    ensures (exists x :: x in s && keep(x)) ==>
              forall x :: multiset(Fallback(s, keep))[x] == if keep(x) then multiset(s)[x] else 0
    ensures (forall x :: x in s ==> !keep(x)) ==> Fallback(s, keep) == s
  {
    KeepSpec(s, keep);
    SubsequenceOfSelf(s);
    if forall x :: x in s ==> !keep(x) {
      KeepNone(s, keep);
    }
  }

  /** Nothing is kept when no element satisfies keep. */
  lemma {:induction false} KeepNone<T>(s: seq<T>, keep: T -> bool)
    requires forall x :: x in s ==> !keep(x)
    ensures Keep(s, keep) == []
    decreases |s|
  {
    if s != [] {
      assert s[0] in s;
      KeepNone(s[1..], keep);
    }
  }

  /** What a filter with a fallback returns comes from its input. */
  lemma FallbackFrom<T>(s: seq<T>, keep: T -> bool)
    ensures forall x :: x in Fallback(s, keep) ==> x in s
  {
    KeepSpec(s, keep);
    forall x | x in Fallback(s, keep) ensures x in s {
      if Keep(s, keep) != [] {
        assert x in Keep(s, keep);
      }
    }
  }

  // ------------------------------------------------------------- filters

  /** Python's `s[i:j]` for 0 <= i <= j: both ends clamped to the length. */
  function PySlice(s: string, i: nat, j: nat): string
    requires i <= j
  {
    s[(if i < |s| then i else |s|)..(if j < |s| then j else |s|)]
  }

  /** `card[2:6] == 'wild'`. */
  predicate IsWildString(card: string)
  {
    PySlice(card, 2, 6) == "wild"
  }

  /** filter_wild (lines 55-63). */
  function FilterWild(hand: seq<string>): (r: seq<string>)
    ensures forall card :: card in r ==> card in hand
  {
    FallbackFrom(hand, (card: string) => !IsWildString(card));
    Fallback(hand, card => !IsWildString(card))
  }

  /** filter_draw (lines 75-83). */
  function FilterDraw(actions: seq<string>): (r: seq<string>)
    ensures forall action :: action in r ==> action in actions
  {
    FallbackFrom(actions, (action: string) => action != "draw");
    Fallback(actions, action => action != "draw")
  }

  /** Python's `card[0]`: the one-character string at the front. */
  function FirstChar(card: string): string
    requires |card| > 0
  {
    card[..1]
  }

  predicate NonEmptyStrings(strs: seq<string>)
  {
    forall s :: s in strs ==> |s| > 0
  }

  /** filter_color (lines 95-103); `card[0]` raises on an empty string. */
  function FilterColor(color: string, actions: seq<string>): (r: seq<string>)
    requires NonEmptyStrings(actions)
    ensures forall action :: action in r ==> action in actions
  {
    FallbackFrom(actions, (action: string) => |action| > 0 && action[..1] == color);
    Fallback(actions, action => |action| > 0 && action[..1] == color)
  }

  /** The first characters of the cards, in order. */
  function FirstChars(hand: seq<string>): (firsts: seq<string>)
    requires NonEmptyStrings(hand)
    ensures |firsts| == |hand| && forall i :: 0 <= i < |hand| ==> firsts[i] == FirstChar(hand[i])
  {
    seq(|hand|, i requires 0 <= i < |hand| => FirstChar(hand[i]))
  }

  /** count_colors (lines 115-122): the loop of hand2dict over the cards'
      first characters. */
  function CountColors(hand: seq<string>): Items
    requires NonEmptyStrings(hand)
  {
    Hand2Dict(FirstChars(hand))
  }

  /** The index of the key `max(d, key=d.get)` returns: the first item with
      the greatest count (max keeps the first of equal maxima). */
  function MaxIndex(d: Items): (i: nat)
    requires d != []
    ensures i < |d|
    ensures forall j :: 0 <= j < |d| ==> d[j].1 <= d[i].1
    ensures forall j :: 0 <= j < i ==> d[j].1 < d[i].1
  {
    if |d| == 1 then 0
    else
      var m := MaxIndex(d[..|d| - 1]);
      if d[|d| - 1].1 > d[m].1 then |d| - 1 else m
  }

  /** step (lines 29-36): drop 'draw' from the legal actions, take the most
      frequent colour of the non-wild cards in hand, and choose among the
      actions of that colour (all actions if none has it). None is the
      ValueError of `max` on an empty hand or of the choice among no
      actions. */
  function Step(legal: seq<string>, hand: seq<string>, pick: nat): Option<string>
    requires NonEmptyStrings(legal) && NonEmptyStrings(hand)
  {
    var actions := FilterDraw(legal);
    var wildless := FilterWild(hand);
    var colors := CountColors(wildless);
    if colors == [] then None
    else
      var color := colors[MaxIndex(colors)].0;
      var choices := FilterColor(color, actions);
      if choices == [] then None else Some(choices[pick % |choices|])
  }

  // -------------------------------------------------------------- lemmas

  /** filter_wild drops exactly the cards whose characters 2..5 read
      'wild' (both wild and wild_draw_4), unless every card is one. */
  lemma FilterWildSpec(hand: seq<string>)
    ensures IsSubsequence(FilterWild(hand), hand)
    ensures hand != [] ==> FilterWild(hand) != []
    ensures (exists card :: card in hand && !IsWildString(card)) ==>
              forall card :: card in FilterWild(hand) <==> card in hand && !IsWildString(card)
    ensures (forall card :: card in hand ==> IsWildString(card)) ==> FilterWild(hand) == hand
  {
    FallbackSpec(hand, (card: string) => !IsWildString(card));
    KeepSpec(hand, (card: string) => !IsWildString(card));
  }

  /** The string test of filter_wild picks out exactly the wild cards. */
  lemma WildStringIsWild(c: Card)
    ensures IsWildString(c.Str()) <==> c.Type() == WildType
  {
    var s := c.Str();
    assert |ColorName(c.color)| == 1;
    assert s[2..] == TraitName(c.face);
    if c.face == WILD || c.face == WILD_DRAW_4 {
      assert s[2..6] == "wild";
    } else if c.face == SKIP {
      assert PySlice(s, 2, 6) == "skip";
    } else if c.face == REVERSE {
      assert PySlice(s, 2, 6) == "reve";
    } else if c.face == DRAW_2 {
      assert PySlice(s, 2, 6) == "draw";
    } else {
      assert |s| == 3;
    }
  }

  /** filter_draw removes every 'draw' and keeps the other actions in order,
      unless only draws remain. */
  lemma FilterDrawSpec(actions: seq<string>)
    ensures IsSubsequence(FilterDraw(actions), actions)
    ensures actions != [] ==> FilterDraw(actions) != []
    ensures (exists a :: a in actions && a != "draw") ==>
              "draw" !in FilterDraw(actions) &&
              forall a :: a != "draw" ==> multiset(FilterDraw(actions))[a] == multiset(actions)[a]
    ensures (forall a :: a in actions ==> a == "draw") ==> FilterDraw(actions) == actions
  {
    FallbackSpec(actions, (action: string) => action != "draw");
    KeepSpec(actions, (action: string) => action != "draw");
  }

  /** A card string of the colour `color` (`card[0] == color`). */
  predicate HasColor(action: string, color: string)
  {
    |action| > 0 && FirstChar(action) == color
  }

  /** filter_color keeps the actions of the colour, in order, and falls back
      to all actions when none has it. */
  lemma FilterColorSpec(color: string, actions: seq<string>)
    requires NonEmptyStrings(actions)
    ensures IsSubsequence(FilterColor(color, actions), actions)
    ensures actions != [] ==> FilterColor(color, actions) != []
    ensures (exists a :: a in actions && HasColor(a, color)) ==>
              forall a :: a in FilterColor(color, actions) <==> a in actions && HasColor(a, color)
    ensures (forall a :: a in actions ==> !HasColor(a, color)) ==> FilterColor(color, actions) == actions
  {
    var keep := (action: string) => |action| > 0 && action[..1] == color;
    FallbackSpec(actions, keep);
    KeepSpec(actions, keep);
  }

  /** count_colors: one key per first character of a card, in order of
      first appearance and without repeats; each count is the number of
      cards starting with that key; the counts add up to the hand size. */
  lemma CountColorsSpec(hand: seq<string>)
    requires NonEmptyStrings(hand)
    ensures DistinctKeys(CountColors(hand))
    ensures Keys(CountColors(hand)) == set card | card in hand :: FirstChar(card)
    ensures forall key :: Count(CountColors(hand), key) == multiset(FirstChars(hand))[key]
    ensures SumCounts(CountColors(hand)) == |hand|
    ensures CountColors(hand) == [] <==> hand == []
  {
    var firsts := FirstChars(hand);
    Hand2DictSpec(firsts);
    assert (set s | s in firsts) == set card | card in hand :: FirstChar(card) by {
      forall s | s in firsts ensures s in set card | card in hand :: FirstChar(card) {
        var i :| 0 <= i < |firsts| && firsts[i] == s;
        assert hand[i] in hand;
      }
      forall card | card in hand ensures FirstChar(card) in firsts {
        var i :| 0 <= i < |hand| && hand[i] == card;
        assert firsts[i] == FirstChar(card);
      }
    }
    if hand != [] {
      assert firsts[0] in Keys(CountColors(hand));
    }
  }

  /** The colour step settles on: the first of the most frequent first
      characters of the non-wild cards in hand. */
  function ChosenColor(hand: seq<string>): string
    requires NonEmptyStrings(hand) && hand != []
  {
    CountColorsSpec(FilterWild(hand));
    FilterWildSpec(hand);
    var colors := CountColors(FilterWild(hand));
    colors[MaxIndex(colors)].0
  }

  /** The chosen colour has the greatest count, and no colour before it in
      the dict has as great a count. */
  lemma ChosenColorMost(hand: seq<string>)
    requires NonEmptyStrings(hand) && hand != []
    ensures var colors := CountColors(FilterWild(hand));
            && colors != []
            && (forall key :: Count(colors, key) <= Count(colors, ChosenColor(hand)))
            && ChosenColor(hand) in Keys(colors)
  {
    FilterWildSpec(hand);
    CountColorsSpec(FilterWild(hand));
    var colors := CountColors(FilterWild(hand));
    var m := MaxIndex(colors);
    CountAt(colors, m);
    forall key ensures Count(colors, key) <= Count(colors, ChosenColor(hand)) {
      CountBounded(colors, key);
    }
  }

  /** step errs exactly on an empty hand or no legal action. */
  lemma StepErrors(legal: seq<string>, hand: seq<string>, pick: nat)
    requires NonEmptyStrings(legal) && NonEmptyStrings(hand)
    ensures Step(legal, hand, pick).None? <==> legal == [] || hand == []
  {
    FilterDrawSpec(legal);
    FilterWildSpec(hand);
    CountColorsSpec(FilterWild(hand));
    if hand != [] {
      var colors := CountColors(FilterWild(hand));
      FilterColorSpec(colors[MaxIndex(colors)].0, FilterDraw(legal));
    }
  }

  /** What step returns is a legal action; it is not 'draw' unless every
      legal action is a draw; and it has the chosen colour whenever a legal
      action other than 'draw' has it. */
  lemma StepChoice(legal: seq<string>, hand: seq<string>, pick: nat)
    requires NonEmptyStrings(legal) && NonEmptyStrings(hand)
    ensures Step(legal, hand, pick).Some? ==>
              var action := Step(legal, hand, pick).value;
              && hand != []
              && action in legal
              && ((exists a :: a in legal && a != "draw") ==> action != "draw")
              && ((exists a :: a in legal && a != "draw" && HasColor(a, ChosenColor(hand))) ==>
                    HasColor(action, ChosenColor(hand)))
  {
    if Step(legal, hand, pick).Some? {
      FilterDrawSpec(legal);
      FilterWildSpec(hand);
      CountColorsSpec(FilterWild(hand));
      var actions := FilterDraw(legal);
      var color := ChosenColor(hand);
      FilterColorSpec(color, actions);
      var choices := FilterColor(color, actions);
      var action := choices[pick % |choices|];
      assert action in choices;
      if exists a :: a in legal && a != "draw" && HasColor(a, color) {
        var a :| a in legal && a != "draw" && HasColor(a, color);
        assert multiset(actions)[a] == multiset(legal)[a] > 0;
      }
    }
  }

  /** A key's count is at most the greatest count of the items. */
  lemma {:induction false} CountBounded(d: Items, key: string)
    requires d != []
    ensures Count(d, key) <= d[MaxIndex(d)].1
    decreases |d|
  {
    if d[0].0 != key && |d| > 1 {
      CountBounded(d[1..], key);
      var i := MaxIndex(d[1..]);
      assert d[1..][i] == d[i + 1];
    } else if d[0].0 != key {
      assert Count(d[1..], key) == 0;
    }
  }
}
