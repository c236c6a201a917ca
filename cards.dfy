// The card collection: a singly linked list of cards, modelled as the
// sequence of its nodes from head to tail.

module Cards {

  /** One node of the list: its pair-matching value and whether it is face up.
      The sprite and shadow a node also carries are rendering state. */
  datatype Card = Card(value: int, revealed: bool)

  /** The position that step `i` of the shuffle swaps with position `i`:
      the random draw for that step, reduced to the range 0..i. A step with
      no draw swaps a position with itself. */
  function PickIndex(picks: seq<nat>, i: nat): (j: nat)
    ensures j <= i
  {
    if i < |picks| then picks[i] % (i + 1) else i
  }

  /** The order a forward Fisher-Yates pass leaves `s` in, starting at step `i`:
      step i swaps position i with position PickIndex(picks, i). */
  function ShuffleFrom<T>(s: seq<T>, picks: seq<nat>, i: nat): seq<T>
    decreases |s| - i
  {
    if i >= |s| then s
    else
      var j := PickIndex(picks, i);
      ShuffleFrom(s[i := s[j]][j := s[i]], picks, i + 1)
  }

  /** The order std::shuffle gives a vector, for the random draws `picks`. */
  function Shuffled<T>(s: seq<T>, picks: seq<nat>): seq<T>
  {
    ShuffleFrom(s, picks, 1)
  }

  /** Every step of the pass is a swap, so the pass is a permutation. */
  lemma {:induction false} ShuffleFromPermutes<T>(s: seq<T>, picks: seq<nat>, i: nat)
    ensures |ShuffleFrom(s, picks, i)| == |s|
    ensures multiset(ShuffleFrom(s, picks, i)) == multiset(s)
    decreases |s| - i
  {
    if i < |s| {
      var j := PickIndex(picks, i);
      var t := s[i := s[j]][j := s[i]];
      assert multiset(t) == multiset(s);
      ShuffleFromPermutes(t, picks, i + 1);
    }
  }

  /** A shuffled list holds the same cards, each as often as before. */
  lemma ShuffledPermutes<T>(s: seq<T>, picks: seq<nat>)
    ensures |Shuffled(s, picks)| == |s|
    ensures multiset(Shuffled(s, picks)) == multiset(s)
  {
    ShuffleFromPermutes(s, picks, 1);
  }

  /** How often `x` occurs in `s`. */
  function Count<T(==)>(s: seq<T>, x: T): nat
  {
    if s == [] then 0 else (if s[0] == x then 1 else 0) + Count(s[1..], x)
  }

  /** Counting agrees with the multiplicity in the sequence's multiset. */
  lemma {:induction false} CountIsMultiplicity<T>(s: seq<T>, x: T)
    ensures Count(s, x) == multiset(s)[x]
  {
    if s != [] {
      CountIsMultiplicity(s[1..], x);
      assert s == [s[0]] + s[1..];
      assert multiset(s) == multiset{s[0]} + multiset(s[1..]);
    }
  }

  /** The pair values of a list of cards, in list order. */
  function Values(deck: seq<Card>): (vs: seq<int>)
    ensures |vs| == |deck|
    ensures forall i :: 0 <= i < |deck| ==> vs[i] == deck[i].value
  {
    seq(|deck|, i requires 0 <= i <= |deck| - 1 => deck[i].value)
  }

  /** The shuffle moves cards, not values: shuffling and then reading the
      values gives the values shuffled the same way. */
  lemma {:induction false} ValuesShuffleFrom(s: seq<Card>, picks: seq<nat>, i: nat)
    ensures Values(ShuffleFrom(s, picks, i)) == ShuffleFrom(Values(s), picks, i)
    decreases |s| - i
  {
    if i < |s| {
      var j := PickIndex(picks, i);
      var t := s[i := s[j]][j := s[i]];
      var vs := Values(s);
      assert Values(t) == vs[i := vs[j]][j := vs[i]];
      ValuesShuffleFrom(t, picks, i + 1);
    }
  }

  /** A shuffled list holds every pair value as often as before. */
  lemma ShuffledValues(s: seq<Card>, picks: seq<nat>)
    ensures multiset(Values(Shuffled(s, picks))) == multiset(Values(s))
  {
    ValuesShuffleFrom(s, picks, 1);
    ShuffledPermutes(Values(s), picks);
  }

  class CardList {
    /** The nodes reachable from `head`, head first. */
    var cards: seq<Card>

    /** An empty list: `head` is null. */
    constructor ()
      ensures cards == []
    {
      cards := [];
    }

    /** Links a new face-down card with value `value` in front of the head. */
    method AddCard(value: int)
      modifies this
      ensures cards == [Card(value, false)] + old(cards)
      ensures |cards| == |old(cards)| + 1 && cards[1..] == old(cards)
    {
      cards := [Card(value, false)] + cards;
    }

    /** Copies the nodes into a vector, permutes the vector with the draws
        `picks`, then relinks the nodes in vector order. */
    method Shuffle(picks: seq<nat>)
      modifies this
      ensures cards == Shuffled(old(cards), picks)
      ensures |cards| == |old(cards)| && multiset(cards) == multiset(old(cards))
    {
      var n := |cards|;
      var nodes := new Card[n];
      var k := 0;
      while k < n
        invariant 0 <= k <= n == |cards| && cards == old(cards)
        invariant nodes[..k] == cards[..k]
      {
        nodes[k] := cards[k];
        k := k + 1;
      }
      assert nodes[..] == cards;

      var i := 1;
      while i < n
        invariant 1 <= i && (n == 0 || i <= n) && nodes.Length == n
        invariant ShuffleFrom(nodes[..], picks, i) == Shuffled(old(cards), picks)
      {
        var j := PickIndex(picks, i);
        var tmp := nodes[i];
        nodes[i] := nodes[j];
        nodes[j] := tmp;
        i := i + 1;
      }
      ghost var vector := nodes[..];
      assert vector == Shuffled(old(cards), picks);

      cards := [];
      var it := n;
      while it > 0
        invariant 0 <= it <= n && nodes[..] == vector
        invariant cards == vector[it..]
      {
        it := it - 1;
        cards := [nodes[it]] + cards;
      }
      ShuffledPermutes(old(cards), picks);
    }

    /** Visits every node from head to tail; what the visitor produces for
        each node is returned in visiting order. */
    method Traverse<T>(visit: Card -> T) returns (visited: seq<T>)
      ensures |visited| == |cards|
      ensures forall i :: 0 <= i < |cards| ==> visited[i] == visit(cards[i])
    {
      visited := [];
      var rest := cards;
      while rest != []
        invariant |visited| + |rest| == |cards|
        invariant rest == cards[|visited|..]
        invariant forall i :: 0 <= i < |visited| ==> visited[i] == visit(cards[i])
      {
        visited := visited + [visit(rest[0])];
        rest := rest[1..];
      }
    }
  }
}
