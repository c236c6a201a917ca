# Memory Match Cards: a verified model of the game core

Memory Match Cards is a full-screen card game. The deck is a singly linked list of
cards. Each card has a pair value and a face-up flag. A level deals two cards of
every value 1..pairs and shuffles them. It then lays the cards out row by row on
the level's grid. The three levels are 4 pairs on a 4 x 2 grid, 8 pairs on 4 x 4
and 12 pairs on 6 x 4. Clicking a face-down card turns it face up and pushes it
on the `flippedCards` stack. When the stack becomes two high, a 0.5 s delay is
armed. Once the delay has elapsed, the top two cards are popped and compared. Equal
values count a match. Unequal values turn both cards face down again. A level whose
pairs are all matched hands over to the next level, and the last level closes the
window.

The model has four modules:

- `Cards` (cards.dfy): the `CardList` class. Its node chain is the sequence
  `cards`, head first. `AddCard` links a node in front of the head. `Shuffle` copies
  the nodes into an array, permutes the array and relinks the nodes. `Traverse`
  visits the nodes head to tail. The shuffle is specified by the pure function
  `Shuffled`, a forward Fisher–Yates pass driven by the random draws `picks`. The
  lemmas prove that `Shuffled` is a permutation.
- `Level` (level.dfy): `SetupLevel` with its two nested loops, the level table,
  and the row/column rule of `setCardPositions`. `Dealt` is the list the loops
  build before shuffling. The lemmas prove that a level's deck holds every value
  exactly twice, face down.
- `MatchEngine` (match_engine.dfy): the stack, the delay flag and the match
  counter as a pure value `Engine`, with the click step `Reveal` and the
  resolution step `Resolve`. The invariant `Inv` says four things:
  - the stack holds distinct face-up cards;
  - an armed delay has two cards to pop;
  - the number of face-up cards is twice the number of matches plus the stack height;
  - the match counter is never negative.
  Both steps preserve `Inv`. The lemmas also show that a completed level has an
  empty stack and a disarmed delay.
- `Session` (session.dfy): the `Game` class. Its fields are the variables of
  `main`'s loop: the card list, `gameStarted`, the level flags, the stack, `matchesFound`,
  `delayActive`, the cards' grid cells and whether the window is open. Its methods
  are one iteration of the loop (`Frame`) and its parts: event handling, the delay
  check (`Tick`) and the level-completion checks. Every method except the
  helpers `DealLevel` and `ResolveTopPair` requires and keeps `Valid()`.
  `DealLevel` runs in the middle of a level change, when the level flags have
  already moved on. `ResolveTopPair` is the pop-and-compare part of `Tick`, which
  restores `Valid()` through `ResolvePreservesInv` and `ResolveKeepsValues`. `Valid()`
  bundles the following facts:
  - before the game starts, no level flag is set and no card is dealt;
  - after it starts, exactly one level flag is set;
  - the deck has the current level's size and sits on that level's grid;
  - the deck holds two cards of every value 1..pairs and no other value. So a
    revealed card's texture index `value - 1` at main.cpp:424 stays inside the 12
    textures loaded at main.cpp:116 (`CardValuesSelectTexture`);
  - the engine invariant holds.

Two behaviours of the code are kept as written and their consequences proved.

- The reveal at main.cpp:421-433 does not check the stack height. So a third and
  a fourth card can be pushed while the delay runs, and the resolution at
  main.cpp:440-461 pops only the top two. The delay is armed only when a push
  makes the stack exactly two high (main.cpp:428). `DelayNeverRearms` proves that
  when two or more cards are left on the stack with the delay disarmed, no later
  click arms it again. `StuckLevelNeverCompletes` adds that the match count then
  stays below the number of pairs. The completion checks at main.cpp:504-560
  therefore never fire, and the level cannot be completed.
  `FourClicksWithinDelay` exhibits a run from a fresh face-down deck that gets
  there, and the state it reaches keeps `Inv`.
- The level change at main.cpp:513-524 (and 536-547) refills the same list
  object. It leaves `flippedCards` and `delayActive` as they were.
  `CompletionEmptiesStack` shows that both are already clear whenever a level is
  complete. So keeping them does no harm, and a stack of list positions stands in
  for the code's stack of node pointers.

## Model

| member | source | states |
|---|---|---|
| Cards.CardList.constructor | Project/main.cpp:23-25 | a new list is empty |
| Cards.CardList.AddCard | Project/main.cpp:28-37 | the new node is a face-down card with the given value, placed at the head; the rest of the list is the old list |
| Cards.PickIndex | Project/main.cpp:46 | a shuffle step at position i swaps with a position in 0..i |
| Cards.CardList.Shuffle | Project/main.cpp:40-53 | the relinked list is the copied vector after the Fisher–Yates pass for the draws; it has the same length and the same cards with the same multiplicities |
| Cards.ShuffleFromPermutes | Project/main.cpp:46 | every remainder of the pass is a permutation: same length, same multiset |
| Cards.ShuffledPermutes | Project/main.cpp:46 | shuffling preserves the length and the multiset of the list |
| Cards.ValuesShuffleFrom | Project/main.cpp:46 | the shuffle moves whole cards: reading the values of a shuffled list gives the values shuffled the same way |
| Cards.ShuffledValues | Project/main.cpp:46 | a shuffled list holds every pair value as often as before |
| Cards.CardList.Traverse | Project/main.cpp:56-60 | the visitor is applied once to every node, in head-to-tail order |
| Level.DealtLength | Project/main.cpp:95-99 | the nested loops add 2*pairs cards, and none when pairs <= 0 |
| Level.DealtCount | Project/main.cpp:95-99 | each face-down card of value 1..pairs occurs exactly twice in the unshuffled list, and no other card occurs |
| Level.DealtCounts | Project/main.cpp:95-99 | the multiset of the unshuffled list holds two face-down cards of every value 1..pairs and nothing else |
| Level.DealtValueCount | Project/main.cpp:95-99 | each value 1..pairs occurs exactly twice in the unshuffled list, and no other value occurs |
| Level.DealtHoldsPairs | Project/main.cpp:95-99 | the unshuffled list holds two cards of every value 1..pairs and nothing else |
| Level.HoldsPairsValueRange | Project/main.cpp:95-99 | a deck holding the pairs of 1..pairs has only values in 1..pairs |
| Level.AddPair | Project/main.cpp:96-98 | the inner loop puts two face-down cards of the value in front of the list |
| Level.SetupLevelDeck | Project/main.cpp:93-101 | a level's shuffled deck has 2*pairs cards, two of each card of value 1..pairs and no other card, every card face down, and every value 1..pairs twice |
| Level.SetupLevel | Project/main.cpp:93-101 | the list is reset, filled and shuffled: it equals the shuffled dealt list, with the size, the multiplicities and the face-down state of a fresh level |
| Level.CellOf | Project/main.cpp:72-73 | the row-major cell of index i: row*cols+col recovers i, and the column lies in 0..cols-1 |
| Level.SetCardPositions | Project/main.cpp:70-90 | the i-th card of the traversal gets cell (i / cols, i % cols), one cell per card, from which its index is recovered |
| Level.LevelGridFits | Project/main.cpp:375-383 | on each level's grid the deck fills the grid exactly and the cards get distinct cells inside it |
| MatchEngine.RevealedCount | Project/main.cpp:15-16 | the number of face-up cards is at most the deck size, and zero exactly when every card is face down |
| MatchEngine.RevealedCountUpdate | Project/main.cpp:423 | turning one card over changes the face-up count by that card alone |
| MatchEngine.RevealEffect | Project/main.cpp:421-433 | a click on a face-down card turns it face up, pushes it and arms the delay exactly when the stack becomes two high; any other click changes nothing |
| MatchEngine.RevealPreservesInv | Project/main.cpp:421-433 | a click keeps the engine invariant |
| MatchEngine.RevealKeepsValues | Project/main.cpp:423 | a click only turns a card over: the value at every position stays the same |
| MatchEngine.RevealAllPreservesInv | Project/main.cpp:421-433 | any sequence of clicks keeps the engine invariant |
| MatchEngine.ArmedDelayCanPop | Project/main.cpp:440-444 | under the invariant, an armed delay always finds two cards to pop |
| MatchEngine.ResolvePreservesInv | Project/main.cpp:440-461 | a resolution keeps the engine invariant |
| MatchEngine.ResolveKeepsValues | Project/main.cpp:446-447 | a resolution only turns cards over: the value at every position stays the same |
| MatchEngine.ResolveOutcome | Project/main.cpp:440-461 | the top two entries leave the stack and the delay is disarmed; equal values keep both cards face up and add a match; unequal values turn both face down and add none; no other card changes |
| MatchEngine.CompletionEmptiesStack | Project/main.cpp:504-525 | matches never exceed the pairs; when every pair is matched, every card is face up, the stack is empty and the delay is disarmed |
| MatchEngine.FreshDeckInv | Project/main.cpp:519-521 | a freshly dealt face-down deck with an empty stack and no matches satisfies the invariant |
| MatchEngine.DelayNeverRearms | Project/main.cpp:428-430 | with two or more stacked cards and the delay disarmed, no sequence of clicks arms the delay again or shrinks the stack |
| MatchEngine.StuckLevelNeverCompletes | Project/main.cpp:421-433 | with two or more stacked cards and the delay disarmed, every sequence of clicks keeps the invariant, keeps the delay disarmed and the match count unchanged, and the count stays below the number of pairs |
| MatchEngine.FourClicksWithinDelay | Project/main.cpp:421-461 | four clicks before the delay elapses leave, after the resolution, two face-up cards on the stack with the delay disarmed, in a state that keeps the invariant |
| Session.Game.constructor | Project/main.cpp:326-336 | the title screen: empty list, empty stack, no level flag, no match, delay disarmed, window open |
| Session.Game.DealLevel | Project/main.cpp:358-359 | the list becomes the shuffled deck of the level, face down, laid out on the level's grid |
| Session.Game.StartGame | Project/main.cpp:351-361 | the play button starts level 1 with a fresh 4-pair deck, an empty stack and no matches |
| Session.Game.ClickCard | Project/main.cpp:421-433 | a card click is the engine's reveal step and keeps the game invariant |
| Session.Game.Tick | Project/main.cpp:438-461 | with the game started and the delay armed and elapsed, the state becomes the engine's resolution of the old state; otherwise nothing changes |
| Session.Game.ResolveTopPair | Project/main.cpp:441-460 | popping the top two and comparing them gives exactly the engine's resolution of the old state |
| Session.Game.NextLevel | Project/main.cpp:513-524 | level 1 hands over to level 2 and level 2 to level 3, with the next level's fresh deck, matches reset and the stack and delay clear |
| Session.Game.CheckCompletion | Project/main.cpp:504-560 | 4 matches on level 1 move to level 2; 8 on level 2 move to level 3; 12 on level 3 close the window; otherwise nothing changes |
| Session.Game.TitleClick | Project/main.cpp:346-371 | on the title screen, play starts level 1, exit and close close the window, and any other click changes nothing |
| Session.Game.GameClick | Project/main.cpp:413-434 | during a level, close closes the window, a card click is the reveal step, and any other click changes nothing |
| Session.Game.HandleEvent | Project/main.cpp:342-436 | a close request closes the window and changes nothing else; on the title screen play starts level 1, exit and close close the window, and other clicks change nothing; during a level close closes the window, a card click is the reveal step, and other clicks change nothing; a resize during a level lays the cards out on the current grid and keeps the engine state; once the game has started the level flags never change and it stays started |
| Session.CardValuesSelectTexture | Project/main.cpp:424 | during a level every card's value lies in 1..12, so `value - 1` indexes one of the 12 card textures |
| Session.Game.Frame | Project/main.cpp:340-560 | one loop iteration keeps the game invariant, does nothing on a closed window, and never returns to the title screen |

## Left out

- Textures, fonts, sounds, sprites, shadows, colours, all drawing and the
  `cout` messages: these are rendering and output, not game state.
- Score and message strings. The score text shows `matchesFound`. The match
  message shows the result of the last comparison and is cleared at a level
  change. Neither feeds back into the game state.
- The floating-point card size, offsets and spacing of `setCardPositions`:
  only its integer row/column rule is modelled.
- Mouse hit-testing against button and card bounds: a click names its target
  (`Target`). A card is named by its traversal index, and cards do not overlap,
  so a click reaches at most one card.
- The clock and the 0.5 s delay: the frame is told whether the delay has
  elapsed (`elapsed`). The clock restart is therefore not modelled.
- The 3 s sleep after a completed level: it is taken as instantaneous.
- The random engine seeded from the time: the shuffle takes the draws as
  `picks`. That the draws give a uniform shuffle, or reach every order, is not
  stated.
- Node identity: the stack holds list positions instead of node pointers.
  `CompletionEmptiesStack` makes this safe, because the list is only relinked when
  the stack is empty.
- `traverse` with a side-effecting visitor: `Traverse` returns what a pure
  visitor produces for each node. The in-place visitors of the game (layout and
  click) are modelled by `SetCardPositions` and `ClickCard`.
- Session.Game.Frame: states the preserved invariant and the monotone start
  flag only. What a frame does in detail is the composition of the contracts of
  `HandleEvent`, `Tick` and `CheckCompletion`, which it calls in that order.
- The fixed-width `int` of `matchesFound`: `Inv` bounds it by the number of
  pairs, so overflow cannot occur.
