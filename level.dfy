// Deck construction for a level, the level table and the row/column rule
// that places the cards of a level on its grid.

module Level {
  import opened Cards

  /** A level: how many pairs its deck holds and the grid it is laid out on. */
  datatype Shape = Shape(pairs: int, cols: int, rows: int)

  const Level1Shape := Shape(4, 4, 2)
  const Level2Shape := Shape(8, 4, 4)
  const Level3Shape := Shape(12, 6, 4)

  predicate IsLevelShape(s: Shape)
  {
    s == Level1Shape || s == Level2Shape || s == Level3Shape
  }

  /** The list the two nested loops of setupLevel build before shuffling:
      every card is pushed on the front, so the last value added is at the head. */
  function Dealt(pairs: int): seq<Card>
    decreases pairs
  {
    if pairs <= 0 then [] else [Card(pairs, false), Card(pairs, false)] + Dealt(pairs - 1)
  }

  /** How often card `c` occurs in the dealt list. */
  lemma {:induction false} DealtCount(pairs: int, c: Card)
    ensures Count(Dealt(pairs), c) == if !c.revealed && 1 <= c.value <= pairs then 2 else 0
    decreases pairs
  {
    if pairs > 0 {
      DealtCount(pairs - 1, c);
      var d := Dealt(pairs);
      assert d[1..] == [Card(pairs, false)] + Dealt(pairs - 1);
      assert d[1..][1..] == Dealt(pairs - 1);
    }
  }

  /** The dealt list holds 2*pairs cards. */
  lemma {:induction false} DealtLength(pairs: int)
    ensures |Dealt(pairs)| == if pairs <= 0 then 0 else 2 * pairs
    decreases pairs
  {
    if pairs > 0 {
      DealtLength(pairs - 1);
    }
  }

  /** The dealt list holds two face-down cards of each value 1..pairs and
      nothing else. */
  lemma DealtCounts(pairs: int)
    ensures forall c :: multiset(Dealt(pairs))[c] == if !c.revealed && 1 <= c.value <= pairs then 2 else 0
  {
    forall c
      ensures multiset(Dealt(pairs))[c] == if !c.revealed && 1 <= c.value <= pairs then 2 else 0
    {
      DealtCount(pairs, c);
      CountIsMultiplicity(Dealt(pairs), c);
    }
  }

  /** The deck holds two cards of every value 1..pairs and no other value. */
  ghost predicate HoldsPairs(deck: seq<Card>, pairs: int)
  {
    forall v :: multiset(Values(deck))[v] == if 1 <= v <= pairs then 2 else 0
  }

  /** How often value `v` occurs in the dealt list. */
  lemma {:induction false} DealtValueCount(pairs: int, v: int)
    ensures Count(Values(Dealt(pairs)), v) == if 1 <= v <= pairs then 2 else 0
    decreases pairs
  {
    if pairs > 0 {
      DealtValueCount(pairs - 1, v);
      var vs := Values(Dealt(pairs));
      assert vs == [pairs, pairs] + Values(Dealt(pairs - 1));
      assert vs[1..] == [pairs] + Values(Dealt(pairs - 1));
      assert vs[1..][1..] == Values(Dealt(pairs - 1));
    }
  }

  /** The dealt list holds every value 1..pairs twice and nothing else. */
  lemma DealtHoldsPairs(pairs: int)
    ensures HoldsPairs(Dealt(pairs), pairs)
  {
    forall v
      ensures multiset(Values(Dealt(pairs)))[v] == if 1 <= v <= pairs then 2 else 0
    {
      DealtValueCount(pairs, v);
      CountIsMultiplicity(Values(Dealt(pairs)), v);
    }
  }

  /** A deck that holds the pairs of 1..pairs has only values in 1..pairs. */
  lemma HoldsPairsValueRange(deck: seq<Card>, pairs: int)
    requires HoldsPairs(deck, pairs)
    ensures forall i :: 0 <= i < |deck| ==> 1 <= deck[i].value <= pairs
  {
    forall i | 0 <= i < |deck|
      ensures 1 <= deck[i].value <= pairs
    {
      assert Values(deck)[i] in multiset(Values(deck));
    }
  }

  /** A level's deck after shuffling: 2*pairs cards, every card of 1..pairs
      exactly twice, no other card, every card face down, and so every value
      of 1..pairs exactly twice. */
  lemma SetupLevelDeck(pairs: int, picks: seq<nat>, deck: seq<Card>)
    requires deck == Shuffled(Dealt(pairs), picks)
    ensures |deck| == if pairs <= 0 then 0 else 2 * pairs
    ensures forall c :: multiset(deck)[c] == if !c.revealed && 1 <= c.value <= pairs then 2 else 0
    ensures forall i :: 0 <= i < |deck| ==> !deck[i].revealed && 1 <= deck[i].value <= pairs
    ensures HoldsPairs(deck, pairs)
  {
    DealtLength(pairs);
    DealtHoldsPairs(pairs);
    ShuffledValues(Dealt(pairs), picks);
    DealtCounts(pairs);
    ShuffledPermutes(Dealt(pairs), picks);
    forall i | 0 <= i < |deck|
      ensures !deck[i].revealed && 1 <= deck[i].value <= pairs
    {
      assert deck[i] in multiset(deck);
    }
  }

  /** Empties the list, adds two cards of each value 1..pairs, then shuffles
      with the random draws `picks`. */
  method SetupLevel(list: CardList, pairs: int, picks: seq<nat>)
    modifies list
    ensures list.cards == Shuffled(Dealt(pairs), picks)
    ensures |list.cards| == if pairs <= 0 then 0 else 2 * pairs
    ensures forall c :: multiset(list.cards)[c] == if !c.revealed && 1 <= c.value <= pairs then 2 else 0
    ensures forall i :: 0 <= i < |list.cards| ==> !list.cards[i].revealed && 1 <= list.cards[i].value <= pairs
    ensures HoldsPairs(list.cards, pairs)
  {
    list.cards := [];
    var i := 1;
    while i <= pairs
      invariant 1 <= i <= if pairs < 1 then 1 else pairs + 1
      invariant list.cards == Dealt(i - 1)
    {
      AddPair(list, i);
      i := i + 1;
    }
    assert Dealt(i - 1) == Dealt(pairs);
    list.Shuffle(picks);
    SetupLevelDeck(pairs, picks, list.cards);
  }

  /** The inner loop of setupLevel: two cards of value `value` go to the front. */
  method AddPair(list: CardList, value: int)
    modifies list
    ensures list.cards == [Card(value, false), Card(value, false)] + old(list.cards)
  {
    var j := 0;
    while j < 2
      invariant 0 <= j <= 2
      invariant |list.cards| == |old(list.cards)| + j && list.cards[j..] == old(list.cards)
      invariant forall k :: 0 <= k < j ==> list.cards[k] == Card(value, false)
    {
      list.AddCard(value);
      j := j + 1;
    }
    assert list.cards == [Card(value, false), Card(value, false)] + old(list.cards);
  }

  /** A grid position. */
  datatype GridCell = GridCell(row: int, col: int)

  /** The cell of the card at traversal index `i` on a grid `cols` wide:
      row-major, so the index is recovered as row * cols + col. */
  function CellOf(i: nat, cols: int): (c: GridCell)
    requires cols > 0
    ensures c.row * cols + c.col == i && 0 <= c.col < cols && 0 <= c.row
  {
    GridCell(i / cols, i % cols)
  }

  /** The integer part of setCardPositions: walks the list with a counter and
      gives the i-th card row i / cols and column i % cols. */
  method SetCardPositions(list: CardList, cols: int) returns (cells: seq<GridCell>)
    requires cols > 0
    ensures |cells| == |list.cards|
    ensures forall i :: 0 <= i < |cells| ==> cells[i] == CellOf(i, cols)
    ensures forall i :: 0 <= i < |cells| ==> cells[i].row * cols + cells[i].col == i
    ensures forall i :: 0 <= i < |cells| ==> 0 <= cells[i].col < cols && 0 <= cells[i].row
  {
    cells := [];
    var i := 0;
    while i < |list.cards|
      invariant 0 <= i <= |list.cards| && |cells| == i
      invariant forall k :: 0 <= k < i ==> cells[k] == CellOf(k, cols)
    {
      cells := cells + [CellOf(i, cols)];
      i := i + 1;
    }
  }

  /** On each of the three level grids the deck fills the grid exactly, and
      the cards get pairwise distinct cells inside it. */
  lemma LevelGridFits(s: Shape)
    requires IsLevelShape(s)
    ensures 2 * s.pairs == s.cols * s.rows
    ensures forall i :: 0 <= i < 2 * s.pairs ==> CellOf(i, s.cols).row < s.rows
    ensures forall i, j :: 0 <= i < j < 2 * s.pairs ==> CellOf(i, s.cols) != CellOf(j, s.cols)
  {
  }
}
