/** The deck manager: building a shuffled 52-card deck and dealing from its end. */
module CardDeck {
  import opened Types

  /** The cards of one suit, one per value, in the order of `values`. */
  function Row(suit: Suit, values: seq<CardValue>): seq<Card> {
    seq(|values|, i requires 0 <= i < |values| => Card(suit, values[i]))
  }

  /** Every suit of `suits` paired with every value of `values`, suit by suit:
      the order in which the nested populate loops push the cards. */
  function CrossProduct(suits: seq<Suit>, values: seq<CardValue>): seq<Card>
    decreases |suits|
  {
    if suits == [] then []
    else CrossProduct(suits[..|suits| - 1], values) + Row(suits[|suits| - 1], values)
  }

  /** The unshuffled deck. */
  function FullDeck(): (d: seq<Card>)
    ensures |d| == 52
  {
    CrossProductLength(SUITS, VALUES);
    CrossProduct(SUITS, VALUES)
  }

  lemma {:induction false} CrossProductLength(suits: seq<Suit>, values: seq<CardValue>)
    ensures |CrossProduct(suits, values)| == |suits| * |values|
    decreases |suits|
  {
    if suits != [] {
      CrossProductLength(suits[..|suits| - 1], values);
      assert |suits[..|suits| - 1]| * |values| + |values| == |suits| * |values|;
    }
  }

  /** A row holds each card of its suit whose value is listed, once. */
  lemma {:induction false} RowCount(suit: Suit, values: seq<CardValue>, c: Card)
    requires Distinct(values)
    ensures multiset(Row(suit, values))[c] == if c.suit == suit && c.value in values then 1 else 0
    decreases |values|
  {
    if values != [] {
      var n := |values| - 1;
      var init := values[..n];
      assert Row(suit, values) == Row(suit, init) + [Card(suit, values[n])];
      assert values == init + [values[n]];
      assert values[n] !in init;
      RowCount(suit, init, c);
    }
  }

  /** Every (suit, value) pair of two duplicate-free lists is in the cross product exactly once. */
  lemma {:induction false} CrossProductCount(suits: seq<Suit>, values: seq<CardValue>, c: Card)
    requires Distinct(suits) && Distinct(values)
    ensures multiset(CrossProduct(suits, values))[c] ==
            if c.suit in suits && c.value in values then 1 else 0
    decreases |suits|
  {
    if suits != [] {
      var n := |suits| - 1;
      var init := suits[..n];
      assert suits == init + [suits[n]];
      assert suits[n] !in init;
      CrossProductCount(init, values, c);
      RowCount(suits[n], values, c);
    }
  }

  /** The populated deck has 52 cards and holds every possible card exactly once. */
  lemma FullDeckExactlyOnce()
    ensures |FullDeck()| == 52
    ensures forall c: Card :: multiset(FullDeck())[c] == 1
  {
    EnumerationsComplete(Card(Club, Ace));
    CrossProductLength(SUITS, VALUES);
    forall c: Card ensures multiset(FullDeck())[c] == 1 {
      EnumerationsComplete(c);
      CrossProductCount(SUITS, VALUES, c);
    }
  }

  /** `s` with the elements at `i` and `j` exchanged. */
  function Swap(s: seq<Card>, i: nat, j: nat): seq<Card>
    requires i < |s| && j < |s|
  {
    s[i := s[j]][j := s[i]]
  }

  /** The random draws for the first `n` positions are in range:
      the draw for position p is an index in 0..p. */
  predicate DrawsBelow(rand: seq<int>, n: nat) {
    n <= |rand| && forall p :: 0 <= p < n ==> 0 <= rand[p] <= p
  }

  /** The deck after the Fisher-Yates steps for positions n-1 down to 0,
      where the step for position p swaps it with position rand[p]. */
  function ShuffleSteps(s: seq<Card>, rand: seq<int>, n: nat): (r: seq<Card>)
    requires n <= |s| && DrawsBelow(rand, n)
    ensures |r| == |s|
    decreases n
  {
    if n == 0 then s else ShuffleSteps(Swap(s, n - 1, rand[n - 1]), rand, n - 1)
  }

  /** The whole shuffle of `s` driven by the draws `rand`. */
  function Shuffled(s: seq<Card>, rand: seq<int>): (r: seq<Card>)
    requires |rand| == |s| && DrawsBelow(rand, |s|)
    ensures |r| == |s|
  {
    ShuffleSteps(s, rand, |s|)
  }

  lemma SwapPermutes(s: seq<Card>, i: nat, j: nat)
    requires i < |s| && j < |s|
    ensures |Swap(s, i, j)| == |s| && multiset(Swap(s, i, j)) == multiset(s)
  {
    var t := s[i := s[j]];
    assert multiset(t) == multiset(s) - multiset{s[i]} + multiset{s[j]};
    assert multiset(t[j := s[i]]) == multiset(t) - multiset{t[j]} + multiset{s[i]};
  }

  /** The shuffle steps only rearrange: same length, same cards. */
  lemma {:induction false} ShuffleStepsPermutes(s: seq<Card>, rand: seq<int>, n: nat)
    requires n <= |s| && DrawsBelow(rand, n)
    ensures |ShuffleSteps(s, rand, n)| == |s|
    ensures multiset(ShuffleSteps(s, rand, n)) == multiset(s)
    decreases n
  {
    if n > 0 {
      var t := Swap(s, n - 1, rand[n - 1]);
      SwapPermutes(s, n - 1, rand[n - 1]);
      ShuffleStepsPermutes(t, rand, n - 1);
    }
  }

  /** Builds the 52 cards with nested loops, then shuffles them in place with
      Fisher-Yates; `rand[p]` stands for the random index drawn when position p
      is swapped. */
  method InitializeDeck(rand: seq<int>) returns (deck: seq<Card>)
    requires |rand| == 52 && DrawsBelow(rand, 52)
    ensures |deck| == 52
    ensures deck == Shuffled(FullDeck(), rand)
    ensures multiset(deck) == multiset(FullDeck())
    ensures forall c: Card :: multiset(deck)[c] == 1
  {
    // Populate: one push per (suit, value), suit by suit.
    var cards: seq<Card> := [];
    for si := 0 to |SUITS|
      invariant cards == CrossProduct(SUITS[..si], VALUES)
    {
      for vi := 0 to |VALUES|
        invariant cards == CrossProduct(SUITS[..si], VALUES) + Row(SUITS[si], VALUES[..vi])
      {
        assert Row(SUITS[si], VALUES[..vi + 1]) == Row(SUITS[si], VALUES[..vi]) + [Card(SUITS[si], VALUES[vi])];
        cards := cards + [Card(SUITS[si], VALUES[vi])];
      }
      assert SUITS[..si + 1][..si] == SUITS[..si];
      assert VALUES[..|VALUES|] == VALUES;
    }
    assert SUITS[..|SUITS|] == SUITS;
    FullDeckExactlyOnce();

    // Shuffle: walk currentPos from the end down, swapping with a drawn index at or below it.
    var a := new Card[|cards|](i requires 0 <= i < |cards| => cards[i]);
    assert a[..] == cards;
    var currentPos := a.Length;
    while currentPos > 0
      invariant 0 <= currentPos <= a.Length
      invariant ShuffleSteps(a[..], rand, currentPos) == Shuffled(cards, rand)
    {
      var randomPos := rand[currentPos - 1];
      currentPos := currentPos - 1;
      ghost var before := a[..];
      var temp := a[currentPos];
      a[currentPos] := a[randomPos];
      a[randomPos] := temp;
      assert a[..] == Swap(before, currentPos, randomPos);
    }
    deck := a[..];
    ShuffleStepsPermutes(cards, rand, |cards|);
  }

  /** The `k` cards at the end of `deck`, the last one first: the order in which
      repeated pops hand them out. */
  function Top(deck: seq<Card>, k: nat): seq<Card>
    requires k <= |deck|
  {
    seq(k, i requires 0 <= i < k => deck[|deck| - 1 - i])
  }

  /** Pops up to `count` cards off a copy of `deck`, stopping early when it runs out. */
  method DealCards(deck: seq<Card>, count: int) returns (newDeck: seq<Card>, dealtCards: seq<Card>)
    ensures |dealtCards| == if count <= 0 then 0 else if count <= |deck| then count else |deck|
    ensures |newDeck| + |dealtCards| == |deck|
    ensures newDeck == deck[..|deck| - |dealtCards|]
    ensures dealtCards == Top(deck, |dealtCards|)
    ensures multiset(newDeck) + multiset(dealtCards) == multiset(deck)
  {
    newDeck := deck;
    dealtCards := [];
    var i := 0;
    while i < count
      invariant 0 <= i <= |deck| && i <= (if count < 0 then 0 else count)
      invariant |dealtCards| == i
      invariant newDeck == deck[..|deck| - i]
      invariant dealtCards == Top(deck, i)
      invariant multiset(newDeck) + multiset(dealtCards) == multiset(deck)
    {
      if newDeck == [] {
        // pop() on an empty array yields undefined
        break;
      }
      var card := newDeck[|newDeck| - 1];
      assert newDeck == newDeck[..|newDeck| - 1] + [card];
      newDeck := newDeck[..|newDeck| - 1];
      dealtCards := dealtCards + [card];
      i := i + 1;
    }
  }

  /** One pop hands out the last card. */
  lemma TopOne(deck: seq<Card>)
    requires deck != []
    ensures Top(deck, 1) == [deck[|deck| - 1]]
  {
  }

  /** The top `k + 1` cards are the last card followed by the top `k` of the rest. */
  lemma TopStep(deck: seq<Card>, k: nat)
    requires k < |deck|
    ensures Top(deck, k + 1) == [deck[|deck| - 1]] + Top(deck[..|deck| - 1], k)
  {
  }

  /** Taking the top `k` cards splits the deck without loss. */
  lemma TopSplit(deck: seq<Card>, k: nat)
    requires k <= |deck|
    ensures multiset(deck[..|deck| - k]) + multiset(Top(deck, k)) == multiset(deck)
  {
    var rest := deck[..|deck| - k];
    calc {
      multiset(deck);
    ==  { assert deck == rest + deck[|deck| - k..]; }
      multiset(rest) + multiset(deck[|deck| - k..]);
    ==  { TopIsReversedSuffix(deck, k); }
      multiset(rest) + multiset(Top(deck, k));
    }
  }

  /** The top `k` cards are the last `k` of the deck, reordered. */
  lemma {:induction false} TopIsReversedSuffix(deck: seq<Card>, k: nat)
    requires k <= |deck|
    ensures multiset(Top(deck, k)) == multiset(deck[|deck| - k..])
    decreases k
  {
    if k > 0 {
      var n := |deck|;
      TopIsReversedSuffix(deck, k - 1);
      assert Top(deck, k) == Top(deck, k - 1) + [deck[n - k]];
      assert deck[n - k..] == [deck[n - k]] + deck[n - k + 1..];
    }
  }
}
