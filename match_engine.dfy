// The match engine: the flippedCards stack, the delayActive flag and the
// matchesFound counter, with the reveal and resolve steps that update them.

module MatchEngine {
  import opened Cards

  /** The engine's state. `deck` is the card list in traversal order;
      `flipped` is the flippedCards stack as traversal indices, top last. */
  datatype Engine = Engine(deck: seq<Card>, flipped: seq<nat>, delayActive: bool, matchesFound: int)

  /** The number of face-up cards. */
  function RevealedCount(deck: seq<Card>): (n: nat)
    ensures n <= |deck|
    ensures n == 0 <==> forall i :: 0 <= i < |deck| ==> !deck[i].revealed
  {
    if deck == [] then 0
    else (if deck[0].revealed then 1 else 0) + RevealedCount(deck[1..])
  }

  /** Turning one card over changes the face-up count by exactly that card. */
  lemma {:induction false} RevealedCountUpdate(deck: seq<Card>, k: nat, c: Card)
    requires k < |deck|
    ensures RevealedCount(deck[k := c]) ==
              RevealedCount(deck) - (if deck[k].revealed then 1 else 0) + (if c.revealed then 1 else 0)
  {
    if k > 0 {
      RevealedCountUpdate(deck[1..], k - 1, c);
      assert deck[k := c][1..] == deck[1..][k - 1 := c];
    }
  }

  /** What the engine keeps true between frames: the stack holds distinct
      face-up cards; an armed delay has two cards to pop; and the face-up cards
      are the stacked ones plus two per match found. */
  ghost predicate Inv(e: Engine)
  {
    (forall i :: 0 <= i < |e.flipped| ==> e.flipped[i] < |e.deck| && e.deck[e.flipped[i]].revealed)
    && (forall i, j :: 0 <= i < j < |e.flipped| ==> e.flipped[i] != e.flipped[j])
    && (e.delayActive ==> |e.flipped| >= 2)
    && 0 <= e.matchesFound
    && RevealedCount(e.deck) == 2 * e.matchesFound + |e.flipped|
  }

  /** A left click on the card at traversal index `k`; an index past the end
      is a click that hits no card. Only a face-down card reacts: it turns
      face up and is pushed, and the delay is armed when the push makes the
      stack exactly two high. The stack height is not checked. */
  function Reveal(e: Engine, k: nat): Engine
  {
    if k < |e.deck| && !e.deck[k].revealed then
      var flipped := e.flipped + [k];
      Engine(e.deck[k := Card(e.deck[k].value, true)], flipped,
             if |flipped| == 2 then true else e.delayActive, e.matchesFound)
    else e
  }

  /** The delay has elapsed: pop the top two cards and compare their values.
      On a mismatch both turn face down; on a match the counter goes up.
      Either way the delay is disarmed. */
  function Resolve(e: Engine): Engine
    requires |e.flipped| >= 2
    requires forall i :: 0 <= i < |e.flipped| ==> e.flipped[i] < |e.deck|
  {
    var n := |e.flipped|;
    var first := e.flipped[n - 1];
    var second := e.flipped[n - 2];
    var rest := e.flipped[..n - 2];
    if e.deck[first].value != e.deck[second].value then
      var deck := e.deck[first := Card(e.deck[first].value, false)];
      Engine(deck[second := Card(deck[second].value, false)], rest, false, e.matchesFound)
    else
      Engine(e.deck, rest, false, e.matchesFound + 1)
  }

  /** The effect of a click: a face-up card or a miss changes nothing; a
      face-down card becomes face up on top of the stack, nothing else in the
      deck changes, and the delay is armed exactly when the stack becomes two high. */
  lemma RevealEffect(e: Engine, k: nat)
    ensures !(k < |e.deck| && !e.deck[k].revealed) ==> Reveal(e, k) == e
    ensures k < |e.deck| && !e.deck[k].revealed ==>
              var r := Reveal(e, k);
              |r.deck| == |e.deck| && r.deck[k] == Card(e.deck[k].value, true)
              && (forall i :: 0 <= i < |e.deck| && i != k ==> r.deck[i] == e.deck[i])
              && |r.flipped| == |e.flipped| + 1 && r.flipped[|r.flipped| - 1] == k
              && r.flipped[..|e.flipped|] == e.flipped
              && (r.delayActive <==> e.delayActive || |r.flipped| == 2)
              && r.matchesFound == e.matchesFound
  {
  }

  /** A click keeps the invariant. */
  lemma RevealPreservesInv(e: Engine, k: nat)
    requires Inv(e)
    ensures Inv(Reveal(e, k))
  {
    if k < |e.deck| && !e.deck[k].revealed {
      RevealedCountUpdate(e.deck, k, Card(e.deck[k].value, true));
      var r := Reveal(e, k);
      forall i | 0 <= i < |e.flipped|
        ensures e.flipped[i] != k
      {
        assert e.deck[e.flipped[i]].revealed;
      }
      assert forall i :: 0 <= i < |e.flipped| ==> r.flipped[i] == e.flipped[i];
    }
  }

  /** Under the invariant an armed delay always finds two cards to pop. */
  lemma ArmedDelayCanPop(e: Engine)
    requires Inv(e) && e.delayActive
    ensures |e.flipped| >= 2
    ensures forall i :: 0 <= i < |e.flipped| ==> e.flipped[i] < |e.deck|
  {
  }

  /** Resolution keeps the invariant. */
  lemma ResolvePreservesInv(e: Engine)
    requires Inv(e) && |e.flipped| >= 2
    ensures Inv(Resolve(e))
  {
    var n := |e.flipped|;
    var first := e.flipped[n - 1];
    var second := e.flipped[n - 2];
    var r := Resolve(e);
    assert first != second;
    forall i | 0 <= i < n - 2
      ensures r.flipped[i] == e.flipped[i] && r.deck[r.flipped[i]] == e.deck[e.flipped[i]]
    {
      assert e.flipped[i] != first && e.flipped[i] != second;
    }
    if e.deck[first].value != e.deck[second].value {
      var deck := e.deck[first := Card(e.deck[first].value, false)];
      RevealedCountUpdate(e.deck, first, Card(e.deck[first].value, false));
      RevealedCountUpdate(deck, second, Card(deck[second].value, false));
    }
  }

  /** The outcome of a resolution under the invariant: two entries leave the
      stack and the delay is disarmed; equal values leave both cards face up
      and add one match, unequal values turn both face down and add none;
      no other card changes. */
  lemma ResolveOutcome(e: Engine)
    requires Inv(e) && |e.flipped| >= 2
    ensures var r := Resolve(e);
            var first := e.flipped[|e.flipped| - 1];
            var second := e.flipped[|e.flipped| - 2];
            r.flipped == e.flipped[..|e.flipped| - 2] && !r.delayActive
            && |r.deck| == |e.deck|
            && (forall i :: 0 <= i < |e.deck| && i != first && i != second ==> r.deck[i] == e.deck[i])
            && r.deck[first].value == e.deck[first].value && r.deck[second].value == e.deck[second].value
            && (e.deck[first].value == e.deck[second].value ==>
                  r.deck[first].revealed && r.deck[second].revealed && r.matchesFound == e.matchesFound + 1)
            && (e.deck[first].value != e.deck[second].value ==>
                  !r.deck[first].revealed && !r.deck[second].revealed && r.matchesFound == e.matchesFound)
  {
    assert e.deck[e.flipped[|e.flipped| - 1]].revealed;
    assert e.deck[e.flipped[|e.flipped| - 2]].revealed;
  }

  /** A click turns a card over and never changes what value sits where. */
  lemma RevealKeepsValues(e: Engine, k: nat)
    ensures Values(Reveal(e, k).deck) == Values(e.deck)
  {
    var r := Reveal(e, k);
    assert forall i :: 0 <= i < |e.deck| ==> Values(r.deck)[i] == Values(e.deck)[i];
  }

  /** A resolution turns cards over and never changes what value sits where. */
  lemma ResolveKeepsValues(e: Engine)
    requires |e.flipped| >= 2
    requires forall i :: 0 <= i < |e.flipped| ==> e.flipped[i] < |e.deck|
    ensures Values(Resolve(e).deck) == Values(e.deck)
  {
    var r := Resolve(e);
    assert forall i :: 0 <= i < |e.deck| ==> Values(r.deck)[i] == Values(e.deck)[i];
  }

  /** Under the invariant a level cannot count more matches than it has
      pairs, and once every pair is matched the stack is empty and the delay
      is disarmed. */
  lemma CompletionEmptiesStack(e: Engine)
    requires Inv(e) && 2 * e.matchesFound >= |e.deck|
    ensures 2 * e.matchesFound == |e.deck|
    ensures e.flipped == [] && !e.delayActive
    ensures forall i :: 0 <= i < |e.deck| ==> e.deck[i].revealed
  {
    if exists i :: 0 <= i < |e.deck| && !e.deck[i].revealed {
      var i :| 0 <= i < |e.deck| && !e.deck[i].revealed;
      RevealedCountUpdate(e.deck, i, Card(e.deck[i].value, true));
      assert RevealedCount(e.deck[i := Card(e.deck[i].value, true)]) <= |e.deck|;
    }
  }

  /** A freshly dealt deck with an empty stack and no matches satisfies the invariant. */
  lemma FreshDeckInv(deck: seq<Card>)
    requires forall i :: 0 <= i < |deck| ==> !deck[i].revealed
    ensures Inv(Engine(deck, [], false, 0))
  {
  }

  /** Several clicks in a row. */
  function RevealAll(e: Engine, ks: seq<nat>): Engine
    decreases |ks|
  {
    if ks == [] then e else RevealAll(Reveal(e, ks[0]), ks[1..])
  }

  /** Once the stack holds two or more cards with the delay disarmed (what a
      resolution leaves after four clicks within one delay), no later click
      arms the delay again, so the stacked cards are never resolved. */
  lemma {:induction false} DelayNeverRearms(e: Engine, ks: seq<nat>)
    requires !e.delayActive && |e.flipped| >= 2
    ensures !RevealAll(e, ks).delayActive
    ensures |RevealAll(e, ks).flipped| >= |e.flipped|
    decreases |ks|
  {
    if ks != [] {
      DelayNeverRearms(Reveal(e, ks[0]), ks[1..]);
    }
  }

  /** Any sequence of clicks keeps the invariant. */
  lemma {:induction false} RevealAllPreservesInv(e: Engine, ks: seq<nat>)
    requires Inv(e)
    ensures Inv(RevealAll(e, ks))
    decreases |ks|
  {
    if ks != [] {
      RevealPreservesInv(e, ks[0]);
      RevealAllPreservesInv(Reveal(e, ks[0]), ks[1..]);
    }
  }

  /** Once the stack holds two or more cards with the delay disarmed, no
      sequence of clicks arms the delay, adds a match or gets the matches up
      to the number of pairs: the level can no longer be completed. */
  lemma {:induction false} StuckLevelNeverCompletes(e: Engine, ks: seq<nat>)
    requires Inv(e) && !e.delayActive && |e.flipped| >= 2
    ensures var r := RevealAll(e, ks);
            Inv(r) && !r.delayActive && |r.flipped| >= 2 && |r.deck| == |e.deck|
            && r.matchesFound == e.matchesFound && 2 * r.matchesFound < |r.deck|
    decreases |ks|
  {
    if ks != [] {
      RevealPreservesInv(e, ks[0]);
      StuckLevelNeverCompletes(Reveal(e, ks[0]), ks[1..]);
    }
  }

  /** Four clicks before the delay elapses: the stack grows to four, the
      resolution takes the two most recent cards, and the two older face-up
      cards stay on the stack with the delay disarmed. The state reached keeps
      the invariant, so StuckLevelNeverCompletes applies to it. */
  lemma FourClicksWithinDelay()
    ensures var deck := [Card(1, false), Card(2, false), Card(3, false), Card(4, false)];
            var e := RevealAll(Engine(deck, [], false, 0), [0, 1, 2, 3]);
            e.delayActive && e.flipped == [0, 1, 2, 3]
            && Resolve(e).flipped == [0, 1] && !Resolve(e).delayActive
            && Resolve(e).deck[0].revealed && Resolve(e).deck[1].revealed
            && Inv(Resolve(e))
  {
    var deck := [Card(1, false), Card(2, false), Card(3, false), Card(4, false)];
    var e0 := Engine(deck, [], false, 0);
    var e1 := Reveal(e0, 0);
    var e2 := Reveal(e1, 1);
    var e3 := Reveal(e2, 2);
    var e4 := Reveal(e3, 3);
    assert RevealAll(e4, []) == e4;
    assert RevealAll(e0, [0, 1, 2, 3]) == RevealAll(e1, [1, 2, 3]);
    assert RevealAll(e1, [1, 2, 3]) == RevealAll(e2, [2, 3]);
    assert RevealAll(e2, [2, 3]) == RevealAll(e3, [3]);
    assert RevealAll(e3, [3]) == RevealAll(e4, []);
    FreshDeckInv(deck);
    RevealAllPreservesInv(e0, [0, 1, 2, 3]);
    ResolvePreservesInv(e4);
  }
}
