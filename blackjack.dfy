/** The rules: hand scores, the settlement of a round and the dealer's fixed policy. */
module Blackjack {
  import opened Types
  import opened CardDeck

  /** What one card adds to a hand: its face value for a numeric rank, 10 for
      Jack, Queen and King, and 11 for an Ace, always. */
  function Points(v: CardValue): (p: nat)
    ensures 2 <= p <= 11
    ensures p == 11 <==> v == Ace
    ensures p == 10 <==> v in {Jack, Queen, King, Number(10)}
  {
    match v
    case Number(n) => n
    case Jack | Queen | King => 10
    case Ace => 11
  }

  /** The score of a hand: the sum of its cards' points. */
  function Score(hand: seq<Card>): (s: nat)
    ensures 2 * |hand| <= s <= 11 * |hand|
    decreases |hand|
  {
    if hand == [] then 0
    else Score(hand[..|hand| - 1]) + Points(hand[|hand| - 1].value)
  }

  /** The app's loop: one switch per card, accumulating into `score`. */
  method CalculateScore(hand: seq<Card>) returns (score: int)
    ensures score == Score(hand)
  {
    score := 0;
    for i := 0 to |hand|
      invariant score == Score(hand[..i])
    {
      assert hand[..i + 1][..i] == hand[..i];
      match hand[i].value
      case Jack | Queen | King =>
        score := score + 10;
      case Ace =>
        score := score + 11;
      case Number(n) =>
        score := score + n;
    }
    assert hand[..|hand|] == hand;
  }

  /** Appending a card adds its points, so drawing never lowers a score. */
  lemma ScoreAppend(hand: seq<Card>, c: Card)
    ensures Score(hand + [c]) == Score(hand) + Points(c.value)
    ensures Score(hand + [c]) > Score(hand)
  {
    assert (hand + [c])[..|hand|] == hand;
  }

  /** The score is additive over concatenation. */
  lemma {:induction false} ScoreConcat(a: seq<Card>, b: seq<Card>)
    ensures Score(a + b) == Score(a) + Score(b)
    decreases |b|
  {
    if b == [] {
      assert a + b == a;
    } else {
      var n := |b| - 1;
      assert a + b == (a + b[..n]) + [b[n]];
      ScoreConcat(a, b[..n]);
      ScoreAppend(a + b[..n], b[n]);
      assert b == b[..n] + [b[n]];
      ScoreAppend(b[..n], b[n]);
    }
  }

  /** The score does not depend on the order of the cards. */
  lemma {:induction false} ScoreOrderIndependent(a: seq<Card>, b: seq<Card>)
    requires multiset(a) == multiset(b)
    ensures Score(a) == Score(b)
    decreases |a|
  {
    if a != [] {
      var n := |a| - 1;
      var c := a[n];
      assert a == a[..n] + [c];
      assert c in multiset(b);
      var j :| 0 <= j < |b| && b[j] == c;
      var rest := b[..j] + b[j + 1..];
      assert b == b[..j] + [c] + b[j + 1..];
      assert multiset(b) == multiset(b[..j]) + multiset{c} + multiset(b[j + 1..]);
      assert multiset(a) == multiset(a[..n]) + multiset{c};
      assert multiset(rest) == multiset(b[..j]) + multiset(b[j + 1..]);
      assert multiset(a[..n]) == multiset(a) - multiset{c};
      assert multiset(rest) == multiset(b) - multiset{c};
      ScoreOrderIndependent(a[..n], rest);
      ScoreAppend(a[..n], c);
      ScoreConcat(b[..j] + [c], b[j + 1..]);
      ScoreAppend(b[..j], c);
      ScoreConcat(b[..j], b[j + 1..]);
    }
  }

  /** Worked examples: 10 and Jack make 20, Ace and King make 21, three Aces make 33. */
  lemma ScoreExamples(s1: Suit, s2: Suit, s3: Suit)
    ensures Score([Card(s1, Number(10)), Card(s2, Jack)]) == 20
    ensures Score([Card(s1, Ace), Card(s2, King)]) == 21
    ensures Score([Card(s1, Ace), Card(s2, Ace), Card(s3, Ace)]) == 33
  {
    assert [Card(s1, Number(10)), Card(s2, Jack)][..1] == [Card(s1, Number(10))];
    assert [Card(s1, Ace), Card(s2, King)][..1] == [Card(s1, Ace)];
    assert [Card(s1, Ace), Card(s2, Ace), Card(s3, Ace)][..2] == [Card(s1, Ace), Card(s2, Ace)];
    assert [Card(s1, Ace), Card(s2, Ace)][..1] == [Card(s1, Ace)];
  }

  /** The signed money change of a settled round: -bet when the dealer wins,
      +bet when the player wins, 0 for a draw. */
  function HandResult(playerScore: int, dealerScore: int, playerBet: int): (r: int)
    // a bust player loses whatever the dealer holds, even a bust dealer
    ensures playerScore > 21 ==> r == -playerBet
    // a standing player beats a bust dealer
    ensures playerScore <= 21 && dealerScore > 21 ==> r == playerBet
    // otherwise the higher score wins and equal scores draw
    ensures playerScore <= 21 && dealerScore <= 21 ==>
      r == (if playerScore > dealerScore then playerBet
            else if playerScore < dealerScore then -playerBet
            else 0)
    ensures r == -playerBet || r == 0 || r == playerBet
  {
    if playerScore > 21 || (dealerScore <= 21 && playerScore < dealerScore) then -playerBet
    else if dealerScore > 21 || (playerScore <= 21 && playerScore > dealerScore) then playerBet
    else 0
  }

  /** Against a fixed dealer score, a higher score that is not bust never settles worse. */
  lemma HandResultMonotone(p1: int, p2: int, dealerScore: int, playerBet: nat)
    requires p1 <= p2 <= 21
    ensures HandResult(p1, dealerScore, playerBet) <= HandResult(p2, dealerScore, playerBet)
  {
  }

  /** The dealer's policy as a definition: while the hand scores under 17, move
      the top card of the deck onto the hand. The empty-deck case only makes the
      definition total; the app's loop does not stop there (see DealerDrawsExhausts). */
  function DealerDraws(deck: seq<Card>, hand: seq<Card>): seq<Card>
    decreases |deck|
  {
    if Score(hand) >= 17 || deck == [] then hand
    else DealerDraws(deck[..|deck| - 1], hand + [deck[|deck| - 1]])
  }

  /** The dealer only ever adds the top cards of the deck, in the order pop hands them out. */
  lemma {:induction false} DealerDrawsTakesTop(deck: seq<Card>, hand: seq<Card>)
    ensures |hand| <= |DealerDraws(deck, hand)| <= |hand| + |deck|
    ensures DealerDraws(deck, hand) == hand + Top(deck, |DealerDraws(deck, hand)| - |hand|)
    decreases |deck|
  {
    if Score(hand) >= 17 || deck == [] {
      assert hand + Top(deck, 0) == hand;
    } else {
      var n := |deck| - 1;
      var c := deck[n];
      DealerDrawsTakesTop(deck[..n], hand + [c]);
      TopStep(deck, |DealerDraws(deck, hand)| - |hand| - 1);
    }
  }

  /** With enough points left in the deck the dealer ends at 17 or more; nothing
      is drawn from 17 up, and from under 17 the final score is at most 27. */
  lemma {:induction false} DealerDrawsReaches17(deck: seq<Card>, hand: seq<Card>)
    requires Score(hand) + Score(deck) >= 17
    ensures Score(DealerDraws(deck, hand)) >= 17
    ensures Score(hand) >= 17 ==> DealerDraws(deck, hand) == hand
    ensures Score(hand) < 17 ==> Score(DealerDraws(deck, hand)) <= 27
    decreases |deck|
  {
    if Score(hand) < 17 {
      var n := |deck| - 1;
      var c := deck[n];
      assert deck == deck[..n] + [c];
      ScoreAppend(hand, c);
      ScoreAppend(deck[..n], c);
      DealerDrawsReaches17(deck[..n], hand + [c]);
    }
  }

  /** The dealer stops at the first score of 17 or more: every hand it passed
      through on the way scored under 17. */
  lemma {:induction false} DealerDrawsStopsFirst(deck: seq<Card>, hand: seq<Card>, j: nat)
    requires |hand| <= j < |DealerDraws(deck, hand)|
    ensures Score(DealerDraws(deck, hand)[..j]) < 17
    decreases |deck|
  {
    var n := |deck| - 1;
    var c := deck[n];
    var r := DealerDraws(deck, hand);
    assert r == DealerDraws(deck[..n], hand + [c]);
    DealerDrawsTakesTop(deck[..n], hand + [c]);
    if j == |hand| {
      assert r[..j] == hand;
    } else {
      DealerDrawsStopsFirst(deck[..n], hand + [c], j);
    }
  }

  /** Without enough points left the app's loop cannot stop: the dealer then
      takes the whole deck and still scores under 17, so the guard stays true. */
  lemma {:induction false} DealerDrawsExhausts(deck: seq<Card>, hand: seq<Card>)
    requires Score(hand) + Score(deck) < 17
    ensures DealerDraws(deck, hand) == hand + Top(deck, |deck|)
    ensures Score(DealerDraws(deck, hand)) < 17
    decreases |deck|
  {
    if deck == [] {
      assert hand + Top(deck, 0) == hand;
    } else {
      var n := |deck| - 1;
      var c := deck[n];
      assert deck == deck[..n] + [c];
      ScoreAppend(hand, c);
      ScoreAppend(deck[..n], c);
      DealerDrawsExhausts(deck[..n], hand + [c]);
      TopStep(deck, n);
    }
  }

  /** The dealer's turn: draw one card at a time from a copy of the deck while
      the score is under 17. `dealerScore` is the score of `dealerHand`, as the
      only caller passes it; the loop ends exactly when the hand and the deck
      together are worth 17 or more (see DealerDrawsExhausts). */
  method DealerTurn(deck: seq<Card>, dealerHand: seq<Card>, dealerScore: int)
    returns (newDealerHand: seq<Card>, newDealerScore: int)
    requires dealerScore == Score(dealerHand)
    requires Score(dealerHand) + Score(deck) >= 17
    ensures newDealerHand == DealerDraws(deck, dealerHand)
    ensures newDealerScore == Score(newDealerHand) && newDealerScore >= 17
    ensures dealerHand <= newDealerHand
    ensures dealerScore >= 17 ==> newDealerHand == dealerHand
  {
    newDealerHand := dealerHand;
    newDealerScore := dealerScore;
    var turnDeck := deck;
    while newDealerScore < 17
      invariant newDealerScore == Score(newDealerHand)
      invariant Score(newDealerHand) + Score(turnDeck) >= 17
      invariant DealerDraws(turnDeck, newDealerHand) == DealerDraws(deck, dealerHand)
      decreases |turnDeck|
    {
      var newDeck, dealtCards := DealCards(turnDeck, 1);
      TopOne(turnDeck);
      assert turnDeck == newDeck + [dealtCards[0]];
      assert DealerDraws(turnDeck, newDealerHand) == DealerDraws(newDeck, newDealerHand + dealtCards);
      ScoreAppend(newDeck, dealtCards[0]);
      ScoreAppend(newDealerHand, dealtCards[0]);
      turnDeck := newDeck;
      newDealerHand := newDealerHand + dealtCards;
      newDealerScore := CalculateScore(newDealerHand);
    }
    DealerDrawsTakesTop(deck, dealerHand);
    DealerDrawsReaches17(deck, dealerHand);
  }
}
