/** encode_hand and encode_other_cards of rlcard/games/uno/utils.py: the
    cards of a hand, counted by hand2dict, written into a fresh numpy plane
    one dictionary entry at a time, then flattened and concatenated with two
    one-hot blocks counting the distinct wild and wild_draw_4 strings.

    A hand entry is read with split('-') and the colour and trait maps; an
    entry that does not read as a card, or whose count falls outside the
    plane, makes Python raise, modelled as None. */
module HandEncode {
  import opened Wrappers
  import opened UnoCards
  import opened Planes

  function Bit(b: bool): (v: int)
    ensures v == 1 <==> b
    ensures v == 0 <==> !b
  {
    if b then 1 else 0
  }

  /** The entry's card string reads as the card of colour `Colors[c]` and trait `t`. */
  predicate IsKind(e: (string, nat), c: nat, t: nat)
    requires c < 4
  {
    ParseCard(e.0).Some? && ParseCard(e.0).value.color == Colors[c] && ParseCard(e.0).value.face == t
  }

  predicate HasFace(s: string, f: Trait)
  {
    ParseCard(s).Some? && ParseCard(s).value.face == f
  }

  /** The level of the plane an entry's count selects: `count - off`, read
      the way Python reads an index into `levels` rows. */
  function Level(e: (string, nat), off: nat, levels: nat): Option<nat>
  {
    PyIndex(e.1 as int - off, levels)
  }

  /** The loop raises on this entry: the string is not a card, or a
      non-wild card's count selects no row of the plane. */
  predicate Faulty(e: (string, nat), off: nat, levels: nat)
  {
    ParseCard(e.0).None? || (ParseCard(e.0).value.face < WILD && Level(e, off, levels).None?)
  }

  /** One of the first n entries wrote a 1 at `plane[level][c][t]`. */
  predicate Marked(d: Items, n: nat, off: nat, levels: nat, level: nat, c: nat, t: nat)
    requires n <= |d| && c < 4
  {
    exists j :: 0 <= j < n && IsKind(d[j], c, t) && Level(d[j], off, levels) == Some(level)
  }

  /** One of the first n entries is the card of colour `Colors[c]`, trait `t`. */
  predicate Seen(d: Items, n: nat, c: nat, t: nat)
    requires n <= |d| && c < 4
  {
    exists j :: 0 <= j < n && IsKind(d[j], c, t)
  }

  /** The counter `wild` (f = WILD) or `wild_4` (f = WILD_DRAW_4) after the
      first n entries. */
  function CountFace(d: Items, n: nat, f: Trait): nat
    requires n <= |d|
  {
    if n == 0 then 0 else CountFace(d, n - 1, f) + Bit(HasFace(d[n - 1].0, f))
  }

  /** The distinct strings of the hand that read as cards with trait f. */
  function FaceKeys(hand: seq<string>, f: Trait): set<string>
  {
    set s | s in hand && HasFace(s, f)
  }

  /** Extending the prefix by an entry that reads as a card of trait `face`
      bumps the counter of that trait only. */
  lemma CountFaceStep(d: Items, i: nat, f: Trait, face: Trait)
    requires i < |d| && ParseCard(d[i].0).Some? && ParseCard(d[i].0).value.face == face
    ensures CountFace(d, i + 1, f) == CountFace(d, i, f) + (if face == f then 1 else 0)
  {
  }

  /** No entry of a prefix raises. */
  predicate Clean(d: Items, n: nat, off: nat, levels: nat)
    requires n <= |d|
  {
    forall j :: 0 <= j < n ==> !Faulty(d[j], off, levels)
  }

  lemma CleanStep(d: Items, i: nat, off: nat, levels: nat)
    requires i < |d|
    ensures Clean(d, i + 1, off, levels) <==> Clean(d, i, off, levels) && !Faulty(d[i], off, levels)
  {
    if Clean(d, i, off, levels) && !Faulty(d[i], off, levels) {
      forall j | 0 <= j < i + 1 ensures !Faulty(d[j], off, levels) {
        if j < i {
          assert !Faulty(d[j], off, levels);
        }
      }
    }
  }

  /** Extending the prefix by entry i adds exactly that entry's mark. */
  lemma MarkedStep(d: Items, i: nat, off: nat, levels: nat, l: nat, c: nat, t: nat)
    requires i < |d| && c < 4
    ensures Marked(d, i + 1, off, levels, l, c, t) <==>
            Marked(d, i, off, levels, l, c, t) || (IsKind(d[i], c, t) && Level(d[i], off, levels) == Some(l))
  {
    if Marked(d, i + 1, off, levels, l, c, t) && !(IsKind(d[i], c, t) && Level(d[i], off, levels) == Some(l)) {
      var j :| 0 <= j < i + 1 && IsKind(d[j], c, t) && Level(d[j], off, levels) == Some(l);
      assert j < i;
    }
  }

  lemma SeenStep(d: Items, i: nat, c: nat, t: nat)
    requires i < |d| && c < 4
    ensures Seen(d, i + 1, c, t) <==> Seen(d, i, c, t) || IsKind(d[i], c, t)
  {
    if Seen(d, i + 1, c, t) && !IsKind(d[i], c, t) {
      var j :| 0 <= j < i + 1 && IsKind(d[j], c, t);
      assert j < i;
    }
  }

  /** The plane cell a parsed entry writes is the one of its colour and trait. */
  lemma KindCell(e: (string, nat), c: nat, t: nat)
    requires ParseCard(e.0).Some? && c < 4
    ensures IsKind(e, c, t) <==>
            c == ColorIndex(ParseCard(e.0).value.color) && t == ParseCard(e.0).value.face
  {
    var col := ParseCard(e.0).value.color;
    if Colors[c] == col {
      assert c == ColorIndex(col) by {
        assert Colors[ColorIndex(col)] == col;
        assert c == 0 || c == 1 || c == 2 || c == 3;
      }
    }
  }

  /** Slot k of a flattened 4-row plane of `cols` columns is row k / cols, column k % cols. */
  lemma PlaneSlot(k: nat, cols: nat)
    requires 0 < cols && k < 4 * cols
    ensures k / cols < 4 && k % cols < cols
  {
  }

  /** Row 0 of a plane whose row 0 starts as ones: the kinds no entry names, flattened. */
  function AbsentBlock(d: Items): seq<int>
  {
    seq(52, k requires 0 <= k < 52 => Bit(!Seen(d, |d|, k / 13, k % 13)))
  }

  /** Row l of the plane, flattened: the kinds whose count selects row l. */
  function RowBlock(d: Items, off: nat, levels: nat, l: nat): seq<int>
  {
    seq(52, k requires 0 <= k < 52 => Bit(Marked(d, |d|, off, levels, l, k / 13, k % 13)))
  }

  /** Columns 1 to 12 of row l of the plane, flattened. */
  function TailBlock(d: Items, off: nat, levels: nat, l: nat): seq<int>
  {
    seq(48, k requires 0 <= k < 48 => Bit(Marked(d, |d|, off, levels, l, k / 12, k % 12 + 1)))
  }

  /** Where cell (c, t) lands in each flattened block. */
  lemma AbsentAt(d: Items, c: nat, t: nat)
    requires c < 4 && t < 13
    ensures |AbsentBlock(d)| == 52 && AbsentBlock(d)[13 * c + t] == Bit(!Seen(d, |d|, c, t))
  {
    SlotOf(c, t);
  }

  lemma RowAt(d: Items, off: nat, levels: nat, l: nat, c: nat, t: nat)
    requires c < 4 && t < 13
    ensures |RowBlock(d, off, levels, l)| == 52
    ensures RowBlock(d, off, levels, l)[13 * c + t] == Bit(Marked(d, |d|, off, levels, l, c, t))
  {
    SlotOf(c, t);
  }

  lemma TailAt(d: Items, off: nat, levels: nat, l: nat, c: nat, t: nat)
    requires c < 4 && 1 <= t < 13
    ensures |TailBlock(d, off, levels, l)| == 48
    ensures TailBlock(d, off, levels, l)[12 * c + t - 1] == Bit(Marked(d, |d|, off, levels, l, c, t))
  {
    SlotOf(c, t);
  }

  /** `plane[l].flatten()`, for a row the loop has filled. */
  method ReadRow(plane: array3<int>, d: Items, off: nat, levels: nat, l: nat) returns (row: seq<int>)
    requires l < plane.Length0 && plane.Length1 == 4 && plane.Length2 == 13
    requires forall c, t :: 0 <= c < 4 && 0 <= t < 13 ==>
               plane[l, c, t] == Bit(Marked(d, |d|, off, levels, l, c, t))
    ensures row == RowBlock(d, off, levels, l)
  {
    row := seq(52, k requires 0 <= k < 52 reads plane => plane[l, k / 13, k % 13]);
    forall k | 0 <= k < 52 ensures row[k] == RowBlock(d, off, levels, l)[k] {
      PlaneSlot(k, 13);
    }
  }

  /** `plane[l][:, 1:].flatten()`, for a row the loop has filled. */
  method ReadTail(plane: array3<int>, d: Items, off: nat, levels: nat, l: nat) returns (row: seq<int>)
    requires l < plane.Length0 && plane.Length1 == 4 && plane.Length2 == 13
    requires forall c, t :: 0 <= c < 4 && 0 <= t < 13 ==>
               plane[l, c, t] == Bit(Marked(d, |d|, off, levels, l, c, t))
    ensures row == TailBlock(d, off, levels, l)
  {
    row := seq(48, k requires 0 <= k < 48 reads plane => plane[l, k / 12, k % 12 + 1]);
    forall k | 0 <= k < 48 ensures row[k] == TailBlock(d, off, levels, l)[k] {
      PlaneSlot(k, 12);
    }
  }

  /** `plane[0].flatten()` of encode_other_cards, whose row 0 marks absent kinds. */
  method ReadAbsent(plane: array3<int>, d: Items) returns (row: seq<int>)
    requires 0 < plane.Length0 && plane.Length1 == 4 && plane.Length2 == 13
    requires forall c, t :: 0 <= c < 4 && 0 <= t < 13 ==> plane[0, c, t] == Bit(!Seen(d, |d|, c, t))
    ensures row == AbsentBlock(d)
  {
    row := seq(52, k requires 0 <= k < 52 reads plane => plane[0, k / 13, k % 13]);
    forall k | 0 <= k < 52 ensures row[k] == AbsentBlock(d)[k] {
      PlaneSlot(k, 13);
    }
  }

  // ------------------------------------------------------------ encode_hand

  /** What encode_hand returns: row 0 of the (2, 4, 13) plane (kinds held
      once), columns 1 to 12 of row 1 (kinds held twice), then the one-hot
      counts of distinct wild and wild_draw_4 strings. */
  function EncodeHandSpec(hand: seq<string>): (r: Option<seq<int>>)
    ensures r.Some? ==> |r.value| == 110
  {
    var d := Hand2Dict(hand);
    if exists j :: 0 <= j < |d| && Faulty(d[j], 1, 2) then None
    else
      var wild :- OneHotAt(5, CountFace(d, |d|, WILD));
      var wild4 :- OneHotAt(5, CountFace(d, |d|, WILD_DRAW_4));
      Some(RowBlock(d, 1, 2, 0) + TailBlock(d, 1, 2, 1) + wild + wild4)
  }

  /** The loop of encode_hand over hand2dict's entries: `ok` is false where
      it raises; otherwise the (2, 4, 13) plane holds a 1 exactly at the
      cells the entries marked, and the counters have counted the wild and
      wild_draw_4 entries. */
  method FillHandPlane(d: Items) returns (ok: bool, plane: array3<int>, wild: nat, wild4: nat)
    ensures fresh(plane) && plane.Length0 == 2 && plane.Length1 == 4 && plane.Length2 == 13
    ensures ok <==> forall j :: 0 <= j < |d| ==> !Faulty(d[j], 1, 2)
    ensures ok ==> wild == CountFace(d, |d|, WILD) && wild4 == CountFace(d, |d|, WILD_DRAW_4)
    ensures ok ==> forall l, c, t :: 0 <= l < 2 && 0 <= c < 4 && 0 <= t < 13 ==>
                     plane[l, c, t] == Bit(Marked(d, |d|, 1, 2, l, c, t))
  {
    wild, wild4 := 0, 0;
    plane := new int[2, 4, 13]((_, _, _) => 0);
    for i := 0 to |d|
      invariant Clean(d, i, 1, 2)
      invariant wild == CountFace(d, i, WILD) && wild4 == CountFace(d, i, WILD_DRAW_4)
      invariant forall l, c, t :: 0 <= l < 2 && 0 <= c < 4 && 0 <= t < 13 ==>
                  plane[l, c, t] == Bit(Marked(d, i, 1, 2, l, c, t))
    {
      var card := ParseCard(d[i].0);
      if card.None? {
        assert Faulty(d[i], 1, 2);
        return false, plane, wild, wild4;
      }
      var face := card.value.face;
      CountFaceStep(d, i, WILD, face);
      CountFaceStep(d, i, WILD_DRAW_4, face);
      if face == WILD {
        wild := wild + 1;
      } else if face == WILD_DRAW_4 {
        wild4 := wild4 + 1;
      } else {
        var level := PyIndex(d[i].1 as int - 1, 2);
        if level.None? {
          assert Faulty(d[i], 1, 2);
          return false, plane, wild, wild4;
        }
      }
      assert !Faulty(d[i], 1, 2);
      CleanStep(d, i, 1, 2);
      MarkHandEntry(d, i, plane);
    }
    ok := true;
  }

  /** One iteration of encode_hand's loop on an entry that does not raise:
      a non-wild card sets its cell in the row its count selects. */
  method MarkHandEntry(d: Items, i: nat, plane: array3<int>)
    requires i < |d| && !Faulty(d[i], 1, 2)
    requires plane.Length0 == 2 && plane.Length1 == 4 && plane.Length2 == 13
    requires forall l, c, t :: 0 <= l < 2 && 0 <= c < 4 && 0 <= t < 13 ==>
               plane[l, c, t] == Bit(Marked(d, i, 1, 2, l, c, t))
    modifies plane
    ensures forall l, c, t :: 0 <= l < 2 && 0 <= c < 4 && 0 <= t < 13 ==>
              plane[l, c, t] == Bit(Marked(d, i + 1, 1, 2, l, c, t))
  {
    var card := ParseCard(d[i].0).value;
    if card.face < WILD {
      var level := PyIndex(d[i].1 as int - 1, 2).value;
      plane[level, ColorIndex(card.color), card.face] := 1;
    }
    forall l, c, t | 0 <= l < 2 && 0 <= c < 4 && 0 <= t < 13
      ensures plane[l, c, t] == Bit(Marked(d, i + 1, 1, 2, l, c, t))
    {
      MarkedStep(d, i, 1, 2, l, c, t);
      KindCell(d[i], c, t);
    }
  }

  /** encode_hand: fill the plane, then concatenate row 0, columns 1 to 12
      of row 1 and the two one-hot counters. */
  method EncodeHand(hand: seq<string>) returns (r: Option<seq<int>>)
    ensures r == EncodeHandSpec(hand)
  {
    var d := Hand2Dict(hand);
    var ok, plane, wild, wild4 := FillHandPlane(d);
    if !ok {
      return None;
    }
    var wildCount := OneHotAt(5, wild);
    var wild4Count := OneHotAt(5, wild4);
    if wildCount.None? || wild4Count.None? {
      return None;
    }
    var once := ReadRow(plane, d, 1, 2, 0);
    var twice := ReadTail(plane, d, 1, 2, 1);
    r := Some(once + twice + wildCount.value + wild4Count.value);
  }

  // ----------------------------------------------------- encode_other_cards

  /** What encode_other_cards returns: rows 0 and 1 of the (3, 4, 13) plane
      (row 0 marks the kinds that are absent, row 1 the kinds present once),
      columns 1 to 12 of row 2 (kinds present twice), then the one-hot
      counts of distinct wild and wild_draw_4 strings. */
  function EncodeOtherCardsSpec(hand: seq<string>): (r: Option<seq<int>>)
    ensures r.Some? ==> |r.value| == 162
  {
    var d := Hand2Dict(hand);
    if exists j :: 0 <= j < |d| && Faulty(d[j], 0, 3) then None
    else
      var wild :- OneHotAt(5, CountFace(d, |d|, WILD));
      var wild4 :- OneHotAt(5, CountFace(d, |d|, WILD_DRAW_4));
      Some(AbsentBlock(d) + RowBlock(d, 0, 3, 1) + TailBlock(d, 0, 3, 2) + wild + wild4)
  }

  /** The loop of encode_other_cards: row 0 of the (3, 4, 13) plane starts
      as ones; each non-wild entry clears its cell in row 0 and sets it in
      the row its count selects. Every count hand2dict produces is positive,
      so no entry selects row 0. */
  method FillOtherPlane(d: Items) returns (ok: bool, plane: array3<int>, wild: nat, wild4: nat)
    requires forall j :: 0 <= j < |d| ==> d[j].1 > 0
    ensures fresh(plane) && plane.Length0 == 3 && plane.Length1 == 4 && plane.Length2 == 13
    ensures ok <==> forall j :: 0 <= j < |d| ==> !Faulty(d[j], 0, 3)
    ensures ok ==> wild == CountFace(d, |d|, WILD) && wild4 == CountFace(d, |d|, WILD_DRAW_4)
    ensures ok ==> forall c, t :: 0 <= c < 4 && 0 <= t < 13 ==>
                     plane[0, c, t] == Bit(!Seen(d, |d|, c, t))
    ensures ok ==> forall l, c, t :: 1 <= l < 3 && 0 <= c < 4 && 0 <= t < 13 ==>
                     plane[l, c, t] == Bit(Marked(d, |d|, 0, 3, l, c, t))
  {
    wild, wild4 := 0, 0;
    plane := new int[3, 4, 13]((l, _, _) => if l == 0 then 1 else 0);
    for i := 0 to |d|
      invariant Clean(d, i, 0, 3)
      invariant wild == CountFace(d, i, WILD) && wild4 == CountFace(d, i, WILD_DRAW_4)
      invariant forall c, t :: 0 <= c < 4 && 0 <= t < 13 ==> plane[0, c, t] == Bit(!Seen(d, i, c, t))
      invariant forall l, c, t :: 1 <= l < 3 && 0 <= c < 4 && 0 <= t < 13 ==>
                  plane[l, c, t] == Bit(Marked(d, i, 0, 3, l, c, t))
    {
      var card := ParseCard(d[i].0);
      if card.None? {
        assert Faulty(d[i], 0, 3);
        return false, plane, wild, wild4;
      }
      var face := card.value.face;
      CountFaceStep(d, i, WILD, face);
      CountFaceStep(d, i, WILD_DRAW_4, face);
      if face == WILD {
        wild := wild + 1;
      } else if face == WILD_DRAW_4 {
        wild4 := wild4 + 1;
      } else {
        var level := PyIndex(d[i].1, 3);
        if level.None? {
          assert Faulty(d[i], 0, 3);
          return false, plane, wild, wild4;
        }
      }
      assert !Faulty(d[i], 0, 3);
      CleanStep(d, i, 0, 3);
      MarkOtherEntry(d, i, plane);
    }
    ok := true;
  }

  /** One iteration of encode_other_cards' loop on an entry that does not
      raise: a non-wild card clears its cell in row 0 and sets it in the row
      its (positive) count selects. */
  method MarkOtherEntry(d: Items, i: nat, plane: array3<int>)
    requires i < |d| && !Faulty(d[i], 0, 3) && d[i].1 > 0
    requires plane.Length0 == 3 && plane.Length1 == 4 && plane.Length2 == 13
    requires forall c, t :: 0 <= c < 4 && 0 <= t < 13 ==> plane[0, c, t] == Bit(!Seen(d, i, c, t))
    requires forall l, c, t :: 1 <= l < 3 && 0 <= c < 4 && 0 <= t < 13 ==>
               plane[l, c, t] == Bit(Marked(d, i, 0, 3, l, c, t))
    modifies plane
    ensures forall c, t :: 0 <= c < 4 && 0 <= t < 13 ==> plane[0, c, t] == Bit(!Seen(d, i + 1, c, t))
    ensures forall l, c, t :: 1 <= l < 3 && 0 <= c < 4 && 0 <= t < 13 ==>
              plane[l, c, t] == Bit(Marked(d, i + 1, 0, 3, l, c, t))
  {
    var card := ParseCard(d[i].0).value;
    if card.face < WILD {
      var level := PyIndex(d[i].1, 3).value;
      plane[0, ColorIndex(card.color), card.face] := 0;
      plane[level, ColorIndex(card.color), card.face] := 1;
    }
    forall c, t | 0 <= c < 4 && 0 <= t < 13
      ensures plane[0, c, t] == Bit(!Seen(d, i + 1, c, t))
    {
      SeenStep(d, i, c, t);
      KindCell(d[i], c, t);
    }
    forall l, c, t | 1 <= l < 3 && 0 <= c < 4 && 0 <= t < 13
      ensures plane[l, c, t] == Bit(Marked(d, i + 1, 0, 3, l, c, t))
    {
      MarkedStep(d, i, 0, 3, l, c, t);
      KindCell(d[i], c, t);
    }
  }

  /** encode_other_cards: fill the plane, then concatenate rows 0 and 1,
      columns 1 to 12 of row 2 and the two one-hot counters. */
  method EncodeOtherCards(hand: seq<string>) returns (r: Option<seq<int>>)
    ensures r == EncodeOtherCardsSpec(hand)
  {
    var d := Hand2Dict(hand);
    Hand2DictItems(hand);
    var ok, plane, wild, wild4 := FillOtherPlane(d);
    if !ok {
      return None;
    }
    var wildCount := OneHotAt(5, wild);
    var wild4Count := OneHotAt(5, wild4);
    if wildCount.None? || wild4Count.None? {
      return None;
    }
    var absent := ReadAbsent(plane, d);
    var once := ReadRow(plane, d, 0, 3, 1);
    var twice := ReadTail(plane, d, 0, 3, 2);
    r := Some(absent + once + twice + wildCount.value + wild4Count.value);
  }

  // ----------------------------------------------------- what the bits mean

  /** The keys among the first n entries that read as cards of trait f. */
  function FaceSet(d: Items, n: nat, f: Trait): set<string>
    requires n <= |d|
  {
    set j | 0 <= j < n && HasFace(d[j].0, f) :: d[j].0
  }

  lemma FaceSetStep(d: Items, n: nat, f: Trait)
    requires 0 < n <= |d|
    ensures HasFace(d[n - 1].0, f) ==> FaceSet(d, n, f) == FaceSet(d, n - 1, f) + {d[n - 1].0}
    ensures !HasFace(d[n - 1].0, f) ==> FaceSet(d, n, f) == FaceSet(d, n - 1, f)
  {
    var extra := if HasFace(d[n - 1].0, f) then {d[n - 1].0} else {};
    forall s | s in FaceSet(d, n, f) ensures s in FaceSet(d, n - 1, f) + extra {
      var j :| 0 <= j < n && HasFace(d[j].0, f) && d[j].0 == s;
      if j < n - 1 {
        assert s in FaceSet(d, n - 1, f);
      }
    }
    forall s | s in FaceSet(d, n - 1, f) ensures s in FaceSet(d, n, f) {
      var j :| 0 <= j < n - 1 && HasFace(d[j].0, f) && d[j].0 == s;
    }
  }

  /** With distinct keys, entry n - 1's key is not among the earlier ones. */
  lemma KeyOutside(d: Items, n: nat, f: Trait)
    requires DistinctKeys(d) && 0 < n <= |d|
    ensures d[n - 1].0 !in FaceSet(d, n - 1, f)
  {
  }

  lemma AddFresh(s: set<string>, x: string)
    requires x !in s
    ensures |s + {x}| == |s| + 1
  {
  }

  /** The wild counters count distinct strings: hand2dict lists each string
      once. */
  lemma {:induction false} CountFacePrefix(d: Items, n: nat, f: Trait)
    requires DistinctKeys(d) && n <= |d|
    ensures CountFace(d, n, f) == |FaceSet(d, n, f)|
  {
    if n > 0 {
      CountFacePrefix(d, n - 1, f);
      FaceSetStep(d, n, f);
      KeyOutside(d, n, f);
      assert CountFace(d, n, f) == CountFace(d, n - 1, f) + Bit(HasFace(d[n - 1].0, f));
      if HasFace(d[n - 1].0, f) {
        AddFresh(FaceSet(d, n - 1, f), d[n - 1].0);
      }
    } else {
      assert FaceSet(d, n, f) == {};
    }
  }

  lemma WildCounters(hand: seq<string>, f: Trait)
    ensures CountFace(Hand2Dict(hand), |Hand2Dict(hand)|, f) == |FaceKeys(hand, f)|
  {
    var d := Hand2Dict(hand);
    Hand2DictSpec(hand);
    CountFacePrefix(d, |d|, f);
    var keys := FaceSet(d, |d|, f);
    forall s | s in FaceKeys(hand, f) ensures s in keys {
      assert s in Keys(d);
      var j :| 0 <= j < |d| && d[j].0 == s;
    }
    forall s | s in keys ensures s in FaceKeys(hand, f) {
      var j :| 0 <= j < |d| && HasFace(d[j].0, f) && d[j].0 == s;
      assert s in Keys(d);
    }
    assert keys == FaceKeys(hand, f);
  }

  /** encode_hand raises exactly when an entry does not read as a card, a
      non-wild string occurs more than twice, or five or more distinct
      strings read as the same wild card; its last two blocks are one-hot at
      the number of distinct wild and wild_draw_4 strings. */
  lemma EncodeHandWild(hand: seq<string>)
    ensures var d := Hand2Dict(hand);
            EncodeHandSpec(hand).Some? <==>
              (forall j :: 0 <= j < |d| ==> !Faulty(d[j], 1, 2)) &&
              |FaceKeys(hand, WILD)| < 5 && |FaceKeys(hand, WILD_DRAW_4)| < 5
    ensures EncodeHandSpec(hand).Some? ==>
              OneHot(EncodeHandSpec(hand).value[100..105], |FaceKeys(hand, WILD)|) &&
              OneHot(EncodeHandSpec(hand).value[105..110], |FaceKeys(hand, WILD_DRAW_4)|)
  {
    WildCounters(hand, WILD);
    WildCounters(hand, WILD_DRAW_4);
  }

  /** encode_other_cards raises in the same way, with up to two copies of a
      non-wild string allowed, and ends with the same two wild blocks. */
  lemma EncodeOtherCardsWild(hand: seq<string>)
    ensures var d := Hand2Dict(hand);
            EncodeOtherCardsSpec(hand).Some? <==>
              (forall j :: 0 <= j < |d| ==> !Faulty(d[j], 0, 3)) &&
              |FaceKeys(hand, WILD)| < 5 && |FaceKeys(hand, WILD_DRAW_4)| < 5
    ensures EncodeOtherCardsSpec(hand).Some? ==>
              OneHot(EncodeOtherCardsSpec(hand).value[152..157], |FaceKeys(hand, WILD)|) &&
              OneHot(EncodeOtherCardsSpec(hand).value[157..162], |FaceKeys(hand, WILD_DRAW_4)|)
  {
    WildCounters(hand, WILD);
    WildCounters(hand, WILD_DRAW_4);
  }

  /** In a hand made by cards2list, an entry is of a given kind exactly when
      its key is that card's string. */
  lemma CanonicalKind(cards: seq<Card>, j: nat, c: nat, t: Trait)
    requires j < |Hand2Dict(Cards2List(cards))| && c < 4
    ensures IsKind(Hand2Dict(Cards2List(cards))[j], c, t) <==>
            Hand2Dict(Cards2List(cards))[j].0 == Card(Colors[c], t).Str()
  {
    var hand := Cards2List(cards);
    var d := Hand2Dict(hand);
    Hand2DictSpec(hand);
    assert d[j].0 in Keys(d);
    var i :| 0 <= i < |hand| && hand[i] == d[j].0;
    ParseCardStr(cards[i]);
    StrInjective(cards[i], Card(Colors[c], t));
  }

  /** The entry of hand2dict carrying a given string, when the hand holds it. */
  lemma EntryOf(hand: seq<string>, key: string) returns (j: nat)
    requires key in hand
    ensures j < |Hand2Dict(hand)| && Hand2Dict(hand)[j] == (key, multiset(hand)[key])
  {
    var d := Hand2Dict(hand);
    Hand2DictSpec(hand);
    assert key in Keys(d);
    j :| 0 <= j < |d| && d[j].0 == key;
    CountAt(d, j);
  }

  lemma CanonicalKinds(cards: seq<Card>, c: nat, t: Trait)
    requires c < 4
    ensures forall j :: 0 <= j < |Hand2Dict(Cards2List(cards))| ==>
              (IsKind(Hand2Dict(Cards2List(cards))[j], c, t) <==>
               Hand2Dict(Cards2List(cards))[j].0 == Card(Colors[c], t).Str())
  {
    forall j | 0 <= j < |Hand2Dict(Cards2List(cards))| {
      CanonicalKind(cards, j, c, t);
    }
  }

  /** When exactly the entries with key `key` are of a kind, the kind's cells
      are read off that key's count. */
  lemma MarkedByKey(hand: seq<string>, key: string, c: nat, t: nat, off: nat, levels: nat, l: nat)
    requires c < 4
    requires forall j :: 0 <= j < |Hand2Dict(hand)| ==>
               (IsKind(Hand2Dict(hand)[j], c, t) <==> Hand2Dict(hand)[j].0 == key)
    ensures var d := Hand2Dict(hand);
            Marked(d, |d|, off, levels, l, c, t) <==>
              multiset(hand)[key] > 0 && PyIndex(multiset(hand)[key] as int - off, levels) == Some(l)
  {
    var d := Hand2Dict(hand);
    if key in hand {
      var j := EntryOf(hand, key);
      OnlyEntry(hand, key, j);
      assert IsKind(d[j], c, t);
      if Marked(d, |d|, off, levels, l, c, t) {
        var i :| 0 <= i < |d| && IsKind(d[i], c, t) && Level(d[i], off, levels) == Some(l);
        assert i == j;
      }
    } else {
      NoEntryOf(hand, key);
    }
  }

  /** Under the same condition, the kind is seen exactly when the hand
      holds that key. */
  lemma SeenByKey(hand: seq<string>, key: string, c: nat, t: nat)
    requires c < 4
    requires forall j :: 0 <= j < |Hand2Dict(hand)| ==>
               (IsKind(Hand2Dict(hand)[j], c, t) <==> Hand2Dict(hand)[j].0 == key)
    ensures var d := Hand2Dict(hand);
            Seen(d, |d|, c, t) <==> multiset(hand)[key] > 0
  {
    var d := Hand2Dict(hand);
    if key in hand {
      var j := EntryOf(hand, key);
      assert IsKind(d[j], c, t);
    } else {
      NoEntryOf(hand, key);
    }
  }

  /** hand2dict has no entry for a string the hand does not hold. */
  lemma NoEntryOf(hand: seq<string>, key: string)
    requires key !in hand
    ensures multiset(hand)[key] == 0
    ensures forall i :: 0 <= i < |Hand2Dict(hand)| ==> Hand2Dict(hand)[i].0 != key
  {
    var d := Hand2Dict(hand);
    Hand2DictSpec(hand);
    forall i | 0 <= i < |d| ensures d[i].0 != key {
      assert d[i].0 in Keys(d);
    }
  }

  /** hand2dict has at most one entry per string. */
  lemma OnlyEntry(hand: seq<string>, key: string, j: nat)
    requires j < |Hand2Dict(hand)| && Hand2Dict(hand)[j].0 == key
    ensures forall i :: 0 <= i < |Hand2Dict(hand)| && Hand2Dict(hand)[i].0 == key ==> i == j
  {
    Hand2DictSpec(hand);
  }

  lemma PyIndexOfCount(k: int, n: nat, l: nat)
    requires k >= 0
    ensures PyIndex(k, n) == Some(l) <==> k == l && l < n
  {
  }

  /** When exactly the entries with key `key` are of a kind, row l of the
      kind is marked exactly when the key occurs `l + off` times. */
  lemma RowByKey(hand: seq<string>, key: string, c: nat, t: nat, off: nat, levels: nat, l: nat)
    requires c < 4 && l < levels && off <= 1 && 0 < l + off
    requires forall j :: 0 <= j < |Hand2Dict(hand)| ==>
               (IsKind(Hand2Dict(hand)[j], c, t) <==> Hand2Dict(hand)[j].0 == key)
    ensures var d := Hand2Dict(hand);
            && (Marked(d, |d|, off, levels, l, c, t) <==> multiset(hand)[key] == l + off)
            && (Seen(d, |d|, c, t) <==> multiset(hand)[key] > 0)
  {
    MarkedByKey(hand, key, c, t, off, levels, l);
    SeenByKey(hand, key, c, t);
    if multiset(hand)[key] >= off {
      PyIndexOfCount(multiset(hand)[key] as int - off, levels, l);
    }
  }

  /** Cell (c, t) of a flattened 4 x 13 plane sits at 13c + t; cell
      (c, t) of the 4 x 12 slice that drops column 0 sits at 12c + t - 1. */
  lemma SlotOf(c: nat, t: nat)
    requires c < 4 && t < 13
    ensures (13 * c + t) / 13 == c && (13 * c + t) % 13 == t
    ensures 1 <= t ==> (12 * c + t - 1) / 12 == c && (12 * c + t - 1) % 12 + 1 == t
  {
  }

  /** Reading a vector that starts with a 52-entry and a 48-entry block. */
  lemma TwoBlocks(r: seq<int>, a: seq<int>, b: seq<int>, i: nat, j: nat)
    requires |a| == 52 && |b| == 48 && |r| >= 100 && r[..100] == a + b
    requires i < 52 && j < 48
    ensures r[i] == a[i] && r[52 + j] == b[j]
  {
    assert r[i] == r[..100][i];
    assert r[52 + j] == r[..100][52 + j];
  }

  /** Reading a vector that starts with two 52-entry blocks and a 48-entry block. */
  lemma ThreeBlocks(r: seq<int>, a: seq<int>, b: seq<int>, e: seq<int>, i: nat, j: nat)
    requires |a| == 52 && |b| == 52 && |e| == 48 && |r| >= 152 && r[..152] == a + b + e
    requires i < 52 && j < 48
    ensures r[i] == a[i] && r[52 + i] == b[i] && r[104 + j] == e[j]
  {
    assert r[i] == r[..152][i];
    assert r[52 + i] == r[..152][52 + i];
    assert r[104 + j] == r[..152][104 + j];
  }

  /** Where the cells of the plane land in encode_hand's result. */
  lemma EncodeHandAt(hand: seq<string>, c: nat, t: nat)
    requires c < 4 && t < 13
    requires EncodeHandSpec(hand).Some?
    ensures var d := Hand2Dict(hand);
            var r := EncodeHandSpec(hand).value;
            && r[13 * c + t] == Bit(Marked(d, |d|, 1, 2, 0, c, t))
            && (1 <= t ==> r[52 + 12 * c + t - 1] == Bit(Marked(d, |d|, 1, 2, 1, c, t)))
  {
    EncodeHandPrefix(hand);
    HandCellsAt(EncodeHandSpec(hand).value, Hand2Dict(hand), c, t);
  }

  /** Cell (c, t) of each block of a vector that starts with encode_hand's two blocks. */
  lemma HandCellsAt(r: seq<int>, d: Items, c: nat, t: nat)
    requires c < 4 && t < 13
    requires |r| >= 100 && r[..100] == RowBlock(d, 1, 2, 0) + TailBlock(d, 1, 2, 1)
    ensures && r[13 * c + t] == Bit(Marked(d, |d|, 1, 2, 0, c, t))
            && (1 <= t ==> r[52 + 12 * c + t - 1] == Bit(Marked(d, |d|, 1, 2, 1, c, t)))
  {
    RowAt(d, 1, 2, 0, c, t);
    if 1 <= t {
      TailAt(d, 1, 2, 1, c, t);
      TwoBlocks(r, RowBlock(d, 1, 2, 0), TailBlock(d, 1, 2, 1), 13 * c + t, 12 * c + t - 1);
    } else {
      TwoBlocks(r, RowBlock(d, 1, 2, 0), TailBlock(d, 1, 2, 1), 13 * c + t, 0);
    }
  }

  /** The first 100 entries of encode_hand's result are its two plane blocks. */
  lemma EncodeHandPrefix(hand: seq<string>)
    requires EncodeHandSpec(hand).Some?
    ensures var d := Hand2Dict(hand);
            |EncodeHandSpec(hand).value| >= 100 &&
            EncodeHandSpec(hand).value[..100] == RowBlock(d, 1, 2, 0) + TailBlock(d, 1, 2, 1)
  {
    var d := Hand2Dict(hand);
    var wild := OneHotAt(5, CountFace(d, |d|, WILD)).value;
    var wild4 := OneHotAt(5, CountFace(d, |d|, WILD_DRAW_4)).value;
    var blocks := RowBlock(d, 1, 2, 0) + TailBlock(d, 1, 2, 1);
    assert EncodeHandSpec(hand).value == blocks + wild + wild4;
    assert |blocks| == 100;
  }

  /** Where the cells of the plane land in encode_other_cards's result. */
  lemma EncodeOtherCardsAt(hand: seq<string>, c: nat, t: nat)
    requires c < 4 && t < 13
    requires EncodeOtherCardsSpec(hand).Some?
    ensures var d := Hand2Dict(hand);
            var r := EncodeOtherCardsSpec(hand).value;
            && r[13 * c + t] == Bit(!Seen(d, |d|, c, t))
            && r[52 + 13 * c + t] == Bit(Marked(d, |d|, 0, 3, 1, c, t))
            && (1 <= t ==> r[104 + 12 * c + t - 1] == Bit(Marked(d, |d|, 0, 3, 2, c, t)))
  {
    EncodeOtherCardsPrefix(hand);
    OtherCellsAt(EncodeOtherCardsSpec(hand).value, Hand2Dict(hand), c, t);
  }

  /** Cell (c, t) of each block of a vector that starts with encode_other_cards' three blocks. */
  lemma OtherCellsAt(r: seq<int>, d: Items, c: nat, t: nat)
    requires c < 4 && t < 13
    requires |r| >= 152 && r[..152] == AbsentBlock(d) + RowBlock(d, 0, 3, 1) + TailBlock(d, 0, 3, 2)
    ensures && r[13 * c + t] == Bit(!Seen(d, |d|, c, t))
            && r[52 + 13 * c + t] == Bit(Marked(d, |d|, 0, 3, 1, c, t))
            && (1 <= t ==> r[104 + 12 * c + t - 1] == Bit(Marked(d, |d|, 0, 3, 2, c, t)))
  {
    AbsentAt(d, c, t);
    RowAt(d, 0, 3, 1, c, t);
    if 1 <= t {
      TailAt(d, 0, 3, 2, c, t);
      ThreeBlocks(r, AbsentBlock(d), RowBlock(d, 0, 3, 1), TailBlock(d, 0, 3, 2), 13 * c + t, 12 * c + t - 1);
    } else {
      ThreeBlocks(r, AbsentBlock(d), RowBlock(d, 0, 3, 1), TailBlock(d, 0, 3, 2), 13 * c + t, 0);
    }
  }

  /** The first 152 entries of encode_other_cards' result are its three plane blocks. */
  lemma EncodeOtherCardsPrefix(hand: seq<string>)
    requires EncodeOtherCardsSpec(hand).Some?
    ensures var d := Hand2Dict(hand);
            |EncodeOtherCardsSpec(hand).value| >= 152 &&
            EncodeOtherCardsSpec(hand).value[..152] == AbsentBlock(d) + RowBlock(d, 0, 3, 1) + TailBlock(d, 0, 3, 2)
  {
    var d := Hand2Dict(hand);
    var wild := OneHotAt(5, CountFace(d, |d|, WILD)).value;
    var wild4 := OneHotAt(5, CountFace(d, |d|, WILD_DRAW_4)).value;
    var blocks := AbsentBlock(d) + RowBlock(d, 0, 3, 1) + TailBlock(d, 0, 3, 2);
    assert EncodeOtherCardsSpec(hand).value == blocks + wild + wild4;
    assert |blocks| == 152;
  }

  /** encode_hand on a hand made by cards2list: cell (c, t) of the first
      block is 1 exactly when the hand holds one copy of that card, and of
      the second block exactly when it holds two. */
  lemma EncodeHandCells(cards: seq<Card>, c: nat, t: Trait)
    requires c < 4 && t < WILD
    requires EncodeHandSpec(Cards2List(cards)).Some?
    ensures var r := EncodeHandSpec(Cards2List(cards)).value;
            var copies := multiset(Cards2List(cards))[Card(Colors[c], t).Str()];
            && (r[13 * c + t] == 1 <==> copies == 1)
            && (1 <= t ==> (r[52 + 12 * c + t - 1] == 1 <==> copies == 2))
  {
    var hand := Cards2List(cards);
    var key := Card(Colors[c], t).Str();
    CanonicalKinds(cards, c, t);
    EncodeHandAt(hand, c, t);
    RowByKey(hand, key, c, t, 1, 2, 0);
    RowByKey(hand, key, c, t, 1, 2, 1);
  }

  /** encode_other_cards on a hand made by cards2list: cell (c, t) of the
      first block is 1 exactly when the cards hold no copy of that card, of
      the second exactly when they hold one, of the third exactly when they
      hold two. */
  lemma EncodeOtherCardsCells(cards: seq<Card>, c: nat, t: Trait)
    requires c < 4 && t < WILD
    requires EncodeOtherCardsSpec(Cards2List(cards)).Some?
    ensures var r := EncodeOtherCardsSpec(Cards2List(cards)).value;
            var copies := multiset(Cards2List(cards))[Card(Colors[c], t).Str()];
            && (r[13 * c + t] == 1 <==> copies == 0)
            && (r[52 + 13 * c + t] == 1 <==> copies == 1)
            && (1 <= t ==> (r[104 + 12 * c + t - 1] == 1 <==> copies == 2))
  {
    var hand := Cards2List(cards);
    var key := Card(Colors[c], t).Str();
    CanonicalKinds(cards, c, t);
    EncodeOtherCardsAt(hand, c, t);
    RowByKey(hand, key, c, t, 0, 3, 1);
    RowByKey(hand, key, c, t, 0, 3, 2);
  }

  lemma SubsetCard(a: set<string>, b: set<string>)
    requires a <= b
    ensures |a| <= |b|
    decreases a
  {
    if a != {} {
      var x :| x in a;
      SubsetCard(a - {x}, b - {x});
    }
  }

  lemma AtMostFour(a: string, b: string, c: string, d: string)
    ensures |{a, b, c, d}| <= 4
  {
    assert {a, b, c, d} == {a} + {b} + {c} + {d};
  }

  function WildStrings(f: Trait): set<string>
  {
    {Card(Red, f).Str(), Card(Green, f).Str(), Card(Blue, f).Str(), Card(Yellow, f).Str()}
  }

  lemma WithinWildStrings(cards: seq<Card>, f: Trait, s: string)
    requires s in FaceKeys(Cards2List(cards), f)
    ensures s in WildStrings(f)
  {
    var hand := Cards2List(cards);
    var i :| 0 <= i < |hand| && hand[i] == s;
    ParseCardStr(cards[i]);
    assert cards[i] == Card(cards[i].color, f);
  }

  /** A hand made by cards2list holds at most four distinct strings of one
      trait, one per colour. */
  lemma CanonicalFaceKeys(cards: seq<Card>, f: Trait)
    ensures |FaceKeys(Cards2List(cards), f)| <= 4
  {
    forall s | s in FaceKeys(Cards2List(cards), f) ensures s in WildStrings(f) {
      WithinWildStrings(cards, f, s);
    }
    SubsetCard(FaceKeys(Cards2List(cards), f), WildStrings(f));
    AtMostFour(Card(Red, f).Str(), Card(Green, f).Str(), Card(Blue, f).Str(), Card(Yellow, f).Str());
  }

  /** An entry of hand2dict on a hand made by cards2list is faulty exactly
      when it is a non-wild card held more than `levels - 1 + off` times. */
  lemma CanonicalFaulty(cards: seq<Card>, j: nat, off: nat, levels: nat)
    requires j < |Hand2Dict(Cards2List(cards))| && off <= 1 && 0 < levels
    ensures var e := Hand2Dict(Cards2List(cards))[j];
            ParseCard(e.0).Some? &&
            (Faulty(e, off, levels) <==> ParseCard(e.0).value.face < WILD && e.1 >= levels + off)
  {
    var hand := Cards2List(cards);
    var d := Hand2Dict(hand);
    Hand2DictSpec(hand);
    Hand2DictItems(hand);
    assert d[j].0 in Keys(d);
    var i :| 0 <= i < |hand| && hand[i] == d[j].0;
    ParseCardStr(cards[i]);
    assert d[j].1 > 0;
    LevelOfPositive(d[j], off, levels);
  }

  /** A positive count selects no row exactly when it is at least
      `levels + off`: the index `count - off` is never negative. */
  lemma LevelOfPositive(e: (string, nat), off: nat, levels: nat)
    requires e.1 > 0 && off <= 1
    ensures Level(e, off, levels).None? <==> e.1 >= levels + off
  {
  }

  /** No non-wild card of the list is held more than twice. */
  predicate AtMostTwice(cards: seq<Card>)
  {
    forall i :: 0 <= i < |cards| && cards[i].face < WILD ==>
      multiset(Cards2List(cards))[cards[i].Str()] <= 2
  }

  lemma FaultyEntry(cards: seq<Card>, j: nat, off: nat, levels: nat)
    requires j < |Hand2Dict(Cards2List(cards))| && off <= 1 && levels + off == 3
    requires Faulty(Hand2Dict(Cards2List(cards))[j], off, levels)
    ensures !AtMostTwice(cards)
  {
    var hand := Cards2List(cards);
    var d := Hand2Dict(hand);
    CanonicalFaulty(cards, j, off, levels);
    Hand2DictItems(hand);
    Hand2DictSpec(hand);
    assert d[j].0 in Keys(d);
    var i :| 0 <= i < |hand| && hand[i] == d[j].0;
    ParseCardStr(cards[i]);
    assert cards[i].face < WILD;
    assert multiset(hand)[cards[i].Str()] == d[j].1 > 2;
  }

  lemma OverheldEntry(cards: seq<Card>, off: nat, levels: nat)
    requires off <= 1 && levels + off == 3
    requires !AtMostTwice(cards)
    ensures exists j :: 0 <= j < |Hand2Dict(Cards2List(cards))| && Faulty(Hand2Dict(Cards2List(cards))[j], off, levels)
  {
    var hand := Cards2List(cards);
    var i :| 0 <= i < |cards| && cards[i].face < WILD && multiset(hand)[cards[i].Str()] > 2;
    assert hand[i] == cards[i].Str();
    var j := EntryOf(hand, cards[i].Str());
    CanonicalFaulty(cards, j, off, levels);
    ParseCardStr(cards[i]);
  }

  lemma NoFaultIffFits(cards: seq<Card>, off: nat, levels: nat)
    requires off <= 1 && levels + off == 3
    ensures (forall j :: 0 <= j < |Hand2Dict(Cards2List(cards))| ==>
               !Faulty(Hand2Dict(Cards2List(cards))[j], off, levels)) <==> AtMostTwice(cards)
  {
    if !AtMostTwice(cards) {
      OverheldEntry(cards, off, levels);
    }
    forall j | 0 <= j < |Hand2Dict(Cards2List(cards))| && Faulty(Hand2Dict(Cards2List(cards))[j], off, levels)
      ensures !AtMostTwice(cards)
    {
      FaultyEntry(cards, j, off, levels);
    }
  }

  /** On a hand made by cards2list, encode_hand and encode_other_cards
      return a vector exactly when no non-wild card is held more than twice. */
  lemma CanonicalDefined(cards: seq<Card>)
    ensures EncodeHandSpec(Cards2List(cards)).Some? <==> AtMostTwice(cards)
    ensures EncodeOtherCardsSpec(Cards2List(cards)).Some? <==> AtMostTwice(cards)
  {
    EncodeHandWild(Cards2List(cards));
    EncodeOtherCardsWild(Cards2List(cards));
    CanonicalFaceKeys(cards, WILD);
    CanonicalFaceKeys(cards, WILD_DRAW_4);
    NoFaultIffFits(cards, 1, 2);
    NoFaultIffFits(cards, 0, 3);
  }
}
