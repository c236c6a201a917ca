// The game session: the state main's loop keeps in local variables (the card
// list, the level flags, the flippedCards stack, matchesFound, delayActive and
// whether the window is open) and the steps one iteration of the loop takes.

module Session {
  import opened Cards
  import opened Level
  import opened MatchEngine

  /** What a left click lands on. The float hit-testing against the button and
      card bounds is not modelled: the click names what it hit. */
  datatype Target = PlayButton | ExitButton | CloseButton | CardAt(index: nat) | Elsewhere

  /** The window events the loop reacts to. */
  datatype Event = Closed | Resized | LeftClick(target: Target) | OtherEvent

  predicate ExactlyOne(a: bool, b: bool, c: bool)
  {
    (a && !b && !c) || (!a && b && !c) || (!a && !b && c)
  }

  class Game {
    const cardList: CardList
    /** The grid cell each card's sprite was last placed in, in traversal order. */
    var cells: seq<GridCell>
    var gameStarted: bool
    var level1: bool
    var level2: bool
    var level3: bool
    var flippedCards: seq<nat>
    var matchesFound: int
    var delayActive: bool
    var windowOpen: bool

    ghost function EngineState(): Engine
      reads this`flippedCards, this`delayActive, this`matchesFound, cardList
    {
      Engine(cardList.cards, flippedCards, delayActive, matchesFound)
    }

    /** The level the flags select (level 3 when none is set). */
    function CurrentShape(): Shape
      reads this`level1, this`level2
    {
      if level1 then Level1Shape else if level2 then Level2Shape else Level3Shape
    }

    /** Before the game starts no level flag is set and no card is dealt; from
        then on exactly one level flag is set, the deck has that level's size
        and holds two cards of each of its values, the cards sit in that
        level's grid, and the match engine keeps Inv. */
    ghost predicate Valid()
      reads this`cells, this`gameStarted, this`level1, this`level2, this`level3
      reads this`flippedCards, this`delayActive, this`matchesFound, cardList
    {
      Inv(EngineState())
      && (!gameStarted ==> !level1 && !level2 && !level3 && cardList.cards == [] && cells == [])
      && (gameStarted ==> ExactlyOne(level1, level2, level3)
                          && |cardList.cards| == 2 * CurrentShape().pairs
                          && HoldsPairs(cardList.cards, CurrentShape().pairs)
                          && |cells| == |cardList.cards|
                          && forall i :: 0 <= i < |cells| ==> cells[i] == CellOf(i, CurrentShape().cols))
    }

    /** The title screen with an empty list, an empty stack and nothing armed. */
    constructor ()
      ensures Valid() && fresh(cardList) && windowOpen && !gameStarted
      ensures EngineState() == Engine([], [], false, 0)
    {
      cardList := new CardList();
      cells := [];
      gameStarted, level1, level2, level3 := false, false, false, false;
      flippedCards, matchesFound, delayActive := [], 0, false;
      windowOpen := true;
    }

    /** Deals the deck of `shape`'s level and lays it out on its grid. */
    method DealLevel(shape: Shape, picks: seq<nat>)
      requires shape.pairs > 0 && shape.cols > 0
      modifies cardList, this`cells
      ensures cardList.cards == Shuffled(Dealt(shape.pairs), picks)
      ensures |cardList.cards| == 2 * shape.pairs
      ensures forall i :: 0 <= i < |cardList.cards| ==> !cardList.cards[i].revealed
      ensures HoldsPairs(cardList.cards, shape.pairs)
      ensures |cells| == |cardList.cards| && forall i :: 0 <= i < |cells| ==> cells[i] == CellOf(i, shape.cols)
    {
      SetupLevel(cardList, shape.pairs, picks);
      cells := SetCardPositions(cardList, shape.cols);
    }

    /** The play button on the title screen: level 1 starts with a fresh
        shuffled 4-pair deck on a 4 x 2 grid. */
    method StartGame(picks: seq<nat>)
      requires Valid() && !gameStarted
      modifies this, cardList
      ensures Valid() && gameStarted && level1 && !level2 && !level3
      ensures cardList.cards == Shuffled(Dealt(Level1Shape.pairs), picks)
      ensures flippedCards == [] && !delayActive && matchesFound == 0
      ensures windowOpen == old(windowOpen)
    {
      gameStarted := true;
      level1 := true;
      DealLevel(Level1Shape, picks);
      FreshDeckInv(cardList.cards);
    }

    /** A click on the card at traversal index `k` (a miss when k is past
        the end): the match engine's reveal step. */
    method ClickCard(k: nat)
      requires Valid()
      modifies cardList, this`flippedCards, this`delayActive
      ensures Valid()
      ensures EngineState() == Reveal(old(EngineState()), k)
    {
      RevealPreservesInv(EngineState(), k);
      RevealKeepsValues(EngineState(), k);
      if k < |cardList.cards| && !cardList.cards[k].revealed {
        cardList.cards := cardList.cards[k := Card(cardList.cards[k].value, true)];
        flippedCards := flippedCards + [k];
        if |flippedCards| == 2 {
          delayActive := true;
        }
      }
    }

    /** The once-per-frame check: if the game has started, the delay is armed
        and it has elapsed, pop the top two cards and compare them. */
    method Tick(elapsed: bool)
      requires Valid()
      modifies cardList, this`flippedCards, this`delayActive, this`matchesFound
      ensures Valid()
      ensures old(gameStarted && delayActive) && elapsed ==> EngineState() == Resolve(old(EngineState()))
      ensures !(old(gameStarted && delayActive) && elapsed) ==> EngineState() == old(EngineState())
    {
      if gameStarted && delayActive && elapsed {
        ghost var e := EngineState();
        ArmedDelayCanPop(e);
        ResolvePreservesInv(e);
        ResolveKeepsValues(e);
        ResolveTopPair();
      }
    }

    /** Pops the top two cards and compares their values: a mismatch turns
        both face down, a match adds one to matchesFound; the delay is disarmed. */
    method ResolveTopPair()
      requires |flippedCards| >= 2
      requires forall i :: 0 <= i < |flippedCards| ==> flippedCards[i] < |cardList.cards|
      modifies cardList, this`flippedCards, this`delayActive, this`matchesFound
      ensures EngineState() == Resolve(old(EngineState()))
    {
      ghost var e := EngineState();
      ghost var n := |e.flipped|;
      var firstCard := flippedCards[|flippedCards| - 1];
      flippedCards := flippedCards[..|flippedCards| - 1];
      var secondCard := flippedCards[|flippedCards| - 1];
      flippedCards := flippedCards[..|flippedCards| - 1];
      assert firstCard == e.flipped[n - 1] && secondCard == e.flipped[n - 2];
      assert flippedCards == e.flipped[..n - 2];

      if cardList.cards[firstCard].value != cardList.cards[secondCard].value {
        cardList.cards := cardList.cards[firstCard := Card(cardList.cards[firstCard].value, false)];
        cardList.cards := cardList.cards[secondCard := Card(cardList.cards[secondCard].value, false)];
        assert cardList.cards == Resolve(e).deck;
      } else {
        matchesFound := matchesFound + 1;
      }
      delayActive := false;
    }

    /** A completed level 1 or 2 hands over to the next level: its flag is
        cleared and the next one set, the next level's deck is dealt and laid
        out, and matchesFound goes back to 0. The stack and the delay flag are
        not touched; they are already clear once every pair is matched. */
    method NextLevel(picks: seq<nat>)
      requires Valid() && gameStarted && (level1 || level2)
      requires matchesFound == CurrentShape().pairs
      modifies this, cardList
      ensures Valid() && gameStarted && windowOpen == old(windowOpen)
      ensures old(level1) ==> !level1 && level2 && !level3 && cardList.cards == Shuffled(Dealt(Level2Shape.pairs), picks)
      ensures old(level2) ==> !level1 && !level2 && level3 && cardList.cards == Shuffled(Dealt(Level3Shape.pairs), picks)
      ensures matchesFound == 0 && flippedCards == [] && !delayActive
    {
      CompletionEmptiesStack(EngineState());
      if level1 {
        level1 := false;
        level2 := true;
        DealLevel(Level2Shape, picks);
      } else {
        level2 := false;
        level3 := true;
        DealLevel(Level3Shape, picks);
      }
      matchesFound := 0;
      FreshDeckInv(cardList.cards);
    }

    /** The three level-completion checks, in order. Level 1 with 4 matches
        moves to level 2 with a fresh 8-pair deck; level 2 with 8 matches moves
        to level 3 with a fresh 12-pair deck; level 3 with 12 matches closes the
        window. A transition resets matchesFound and leaves the stack and the
        delay flag alone, which is safe because both are then already clear. */
    method CheckCompletion(picks: seq<nat>)
      requires Valid()
      modifies this, cardList
      ensures Valid()
      ensures gameStarted == old(gameStarted)
      ensures old(matchesFound == Level1Shape.pairs && level1) ==>
                !level1 && level2 && !level3 && matchesFound == 0
                && cardList.cards == Shuffled(Dealt(Level2Shape.pairs), picks)
                && flippedCards == [] && !delayActive && windowOpen == old(windowOpen)
      ensures old(matchesFound == Level2Shape.pairs && level2) ==>
                !level1 && !level2 && level3 && matchesFound == 0
                && cardList.cards == Shuffled(Dealt(Level3Shape.pairs), picks)
                && flippedCards == [] && !delayActive && windowOpen == old(windowOpen)
      ensures old(matchesFound == Level3Shape.pairs && level3) ==>
                level3 && !windowOpen && EngineState() == old(EngineState())
      ensures !old((matchesFound == Level1Shape.pairs && level1) || (matchesFound == Level2Shape.pairs && level2)
                   || (matchesFound == Level3Shape.pairs && level3)) ==>
                level1 == old(level1) && level2 == old(level2) && level3 == old(level3)
                && windowOpen == old(windowOpen) && cells == old(cells) && EngineState() == old(EngineState())
    {
      if matchesFound == Level1Shape.pairs && level1 {
        NextLevel(picks);
      }

      if matchesFound == Level2Shape.pairs && level2 {
        NextLevel(picks);
      }

      if matchesFound == Level3Shape.pairs && level3 {
        windowOpen := false;
      }
    }

    /** A left click on the title screen: play starts level 1; exit and
        close close the window; anything else does nothing. */
    method TitleClick(target: Target, picks: seq<nat>)
      requires Valid() && !gameStarted
      modifies this, cardList
      ensures Valid()
      ensures target == PlayButton ==>
                gameStarted && level1 && cardList.cards == Shuffled(Dealt(Level1Shape.pairs), picks)
                && flippedCards == [] && !delayActive && matchesFound == 0 && windowOpen == old(windowOpen)
      ensures target == ExitButton || target == CloseButton ==> !windowOpen && unchanged(cardList) && !gameStarted
      ensures target.CardAt? || target == Elsewhere ==> unchanged(this, cardList)
    {
      if target == PlayButton {
        StartGame(picks);
      }
      if target == ExitButton || target == CloseButton {
        windowOpen := false;
      }
    }

    /** A left click during a level: close closes the window; a click on a
        card is the match engine's reveal step; anything else does nothing. */
    method GameClick(target: Target)
      requires Valid() && gameStarted
      modifies cardList, this`flippedCards, this`delayActive, this`windowOpen
      ensures Valid()
      ensures target == CloseButton ==> !windowOpen && EngineState() == old(EngineState())
      ensures target.CardAt? ==> EngineState() == Reveal(old(EngineState()), target.index) && windowOpen == old(windowOpen)
      ensures !target.CardAt? && target != CloseButton ==> unchanged(this, cardList)
    {
      if target == CloseButton {
        windowOpen := false;
      }
      if target.CardAt? {
        ClickCard(target.index);
      }
    }

    /** One polled event: a close request closes the window; a click goes to
        the title screen or to the level in play; a resize during a level lays
        the cards out again on the current level's grid. */
    method HandleEvent(ev: Event, picks: seq<nat>)
      requires Valid()
      modifies this, cardList
      ensures Valid()
      ensures old(gameStarted) ==> gameStarted && level1 == old(level1) && level2 == old(level2) && level3 == old(level3)
      ensures ev == Closed ==>
                !windowOpen && unchanged(cardList) && gameStarted == old(gameStarted)
                && EngineState() == old(EngineState()) && cells == old(cells)
                && level1 == old(level1) && level2 == old(level2) && level3 == old(level3)
      // On the title screen.
      ensures ev == LeftClick(PlayButton) && !old(gameStarted) ==>
                gameStarted && level1 && cardList.cards == Shuffled(Dealt(Level1Shape.pairs), picks)
                && flippedCards == [] && !delayActive && matchesFound == 0 && windowOpen == old(windowOpen)
      ensures ev.LeftClick? && (ev.target == ExitButton || ev.target == CloseButton) && !old(gameStarted) ==>
                !windowOpen && !gameStarted && unchanged(cardList)
      ensures ev.LeftClick? && (ev.target.CardAt? || ev.target == Elsewhere) && !old(gameStarted) ==>
                unchanged(this, cardList)
      // During a level.
      ensures ev == LeftClick(CloseButton) && old(gameStarted) ==>
                !windowOpen && EngineState() == old(EngineState())
      ensures ev.LeftClick? && ev.target.CardAt? && old(gameStarted) ==>
                EngineState() == Reveal(old(EngineState()), ev.target.index) && windowOpen == old(windowOpen)
      ensures ev.LeftClick? && !ev.target.CardAt? && ev.target != CloseButton && old(gameStarted) ==>
                unchanged(this, cardList)
      // A resize lays the cards out again on the current grid; other events do nothing.
      ensures ev == Resized && old(gameStarted) ==>
                EngineState() == old(EngineState()) && windowOpen == old(windowOpen)
                && |cells| == |cardList.cards|
                && forall i :: 0 <= i < |cells| ==> cells[i] == CellOf(i, CurrentShape().cols)
      ensures (ev == Resized && !old(gameStarted)) || ev == OtherEvent ==> unchanged(this, cardList)
    {
      match ev
      case Closed =>
        windowOpen := false;
      case LeftClick(target) =>
        if !gameStarted {
          TitleClick(target, picks);
        } else {
          GameClick(target);
        }
      case Resized =>
        if gameStarted {
          cells := SetCardPositions(cardList, CurrentShape().cols);
        }
      case OtherEvent =>
    }

    /** One iteration of the main loop while the window is open: the pending
        events in order until one closes the window (a closed window reports
        no further events), then the delay check, then the level checks.
        `elapsed` says whether the delay clock has passed 0.5 s; `picks` are
        the random draws for a shuffle made during the frame. */
    method Frame(events: seq<Event>, elapsed: bool, picks: seq<nat>)
      requires Valid()
      modifies this, cardList
      ensures Valid()
      ensures !old(windowOpen) ==> unchanged(this, cardList)
      ensures old(gameStarted) ==> gameStarted
    {
      if !windowOpen {
        return;
      }
      var i := 0;
      while i < |events| && windowOpen
        invariant 0 <= i <= |events|
        invariant Valid()
        invariant old(gameStarted) ==> gameStarted
      {
        HandleEvent(events[i], picks);
        i := i + 1;
      }
      Tick(elapsed);
      CheckCompletion(picks);
    }
  }

  /** A face-up card shows the texture for its value, one of the twelve card
      textures: during a level every card's value lies in 1..12. */
  lemma CardValuesSelectTexture(g: Game)
    requires g.Valid() && g.gameStarted
    ensures forall i :: 0 <= i < |g.cardList.cards| ==> 1 <= g.cardList.cards[i].value <= 12
  {
    HoldsPairsValueRange(g.cardList.cards, g.CurrentShape().pairs);
  }
}
