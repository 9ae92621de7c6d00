/** The round engine: the state cells of the game screen and the handlers that
    the buttons call. */
module App {
  import opened Types
  import opened CardDeck
  import opened Blackjack

  /** The stake of a new game. */
  const STARTING_MONEY := 200

  /** No card has been created or lost since the deck was built: the deck and
      the two hands together are one full deck. */
  ghost predicate Conserved(deck: seq<Card>, playerHand: seq<Card>, dealerHand: seq<Card>) {
    multiset(deck) + multiset(playerHand) + multiset(dealerHand) == multiset(FullDeck())
  }

  /** Conserved cards number 52 and each card is in exactly one place. */
  lemma ConservedCards(deck: seq<Card>, playerHand: seq<Card>, dealerHand: seq<Card>)
    requires Conserved(deck, playerHand, dealerHand)
    ensures |deck| + |playerHand| + |dealerHand| == 52
    ensures forall c: Card :: multiset(deck)[c] + multiset(playerHand)[c] + multiset(dealerHand)[c] == 1
  {
    FullDeckExactlyOnce();
    assert |multiset(deck) + multiset(playerHand) + multiset(dealerHand)| == |multiset(FullDeck())|;
    forall c: Card
      ensures multiset(deck)[c] + multiset(playerHand)[c] + multiset(dealerHand)[c] == 1
    {
      assert (multiset(deck) + multiset(playerHand) + multiset(dealerHand))[c] == multiset(FullDeck())[c];
    }
  }

  /** While a round is open the deck still holds at least 40 cards, far more than
      the dealer can need: the dealer's loop is sure to end. */
  lemma DeckSuffices(deck: seq<Card>, playerHand: seq<Card>, dealerHand: seq<Card>)
    requires Conserved(deck, playerHand, dealerHand)
    requires |dealerHand| == 1 && |playerHand| <= 11
    ensures |deck| >= 40
    ensures Score(dealerHand) < 17 <= Score(dealerHand) + Score(deck)
  {
    ConservedCards(deck, playerHand, dealerHand);
  }

  /** Moving the top card of the deck to the player's hand keeps the cards conserved. */
  lemma HitConserves(deck: seq<Card>, playerHand: seq<Card>, dealerHand: seq<Card>)
    requires Conserved(deck, playerHand, dealerHand) && deck != []
    ensures Conserved(deck[..|deck| - 1], playerHand + [deck[|deck| - 1]], dealerHand)
  {
    assert deck == deck[..|deck| - 1] + [deck[|deck| - 1]];
  }

  /** Moving the dealer's draws from the deck to the dealer's hand keeps the cards conserved. */
  lemma DealerConserves(deck: seq<Card>, playerHand: seq<Card>, dealerHand: seq<Card>, r: seq<Card>)
    requires Conserved(deck, playerHand, dealerHand)
    requires r == DealerDraws(deck, dealerHand)
    ensures |dealerHand| <= |r| <= |dealerHand| + |deck|
    ensures Conserved(deck[..|deck| - (|r| - |dealerHand|)], playerHand, r)
  {
    DealerDrawsTakesTop(deck, dealerHand);
    var k := |r| - |dealerHand|;
    TopSplit(deck, k);
    assert multiset(r) == multiset(dealerHand) + multiset(Top(deck, k));
  }

  /** From a score under 17 the dealer's first draw is the top card of the deck. */
  lemma DealerFirstDraw(deck: seq<Card>, hand: seq<Card>)
    requires Score(hand) < 17 <= Score(hand) + Score(deck)
    ensures |DealerDraws(deck, hand)| > |hand|
    ensures DealerDraws(deck, hand)[|hand|] == deck[|deck| - 1]
  {
    DealerDrawsTakesTop(deck, hand);
    DealerDrawsReaches17(deck, hand);
  }

  /** What holds between handler calls, on the values of the state cells. */
  ghost predicate Invariant(money: int, phase: GameState, bet: int, roundResult: int,
                            deck: seq<Card>, playerHand: seq<Card>, dealerHand: seq<Card>)
  {
    money >= 0 &&
    (money == 0 <==> phase.OutOfMoney?) &&
    (phase.OutOfMoney? ==> bet == 0 && roundResult == 0) &&
    (phase.PlaceBet? ==> roundResult == 0 && Dealt(deck, playerHand, dealerHand) && |playerHand| == 2) &&
    (phase.Play? ==>
      0 < bet <= money && roundResult == 0 && Dealt(deck, playerHand, dealerHand) &&
      // the opening two cards may already be bust (two Aces); a hit never leaves a bust hand in play
      (Score(playerHand) <= 21 || |playerHand| == 2)) &&
    (phase.Stand? ==>
      0 < bet <= money && (roundResult == -bet || roundResult == 0 || roundResult == bet))
  }

  /** The cards of a round in progress: one dealer card, the player's cards,
      the rest of one full deck. */
  ghost predicate Dealt(deck: seq<Card>, playerHand: seq<Card>, dealerHand: seq<Card>) {
    |dealerHand| == 1 && 2 <= |playerHand| && Conserved(deck, playerHand, dealerHand)
  }

  /** A round in play has at least 40 cards left in the deck, so a hit always
      finds a card. */
  lemma InPlayDeckHolds(money: int, bet: int, deck: seq<Card>, playerHand: seq<Card>, dealerHand: seq<Card>)
    requires Invariant(money, GameState.Play, bet, 0, deck, playerHand, dealerHand)
    ensures |playerHand| <= 10 && |deck| >= 40
  {
    DeckSuffices(deck, playerHand, dealerHand);
  }

  /** A hit that does not bust leaves a valid round in play. */
  lemma HitInPlay(money: int, bet: int, deck: seq<Card>, playerHand: seq<Card>, dealerHand: seq<Card>)
    requires Invariant(money, GameState.Play, bet, 0, deck, playerHand, dealerHand) && deck != []
    requires Score(playerHand + [deck[|deck| - 1]]) <= 21
    ensures Invariant(money, GameState.Play, bet, 0, deck[..|deck| - 1], playerHand + [deck[|deck| - 1]], dealerHand)
  {
    HitConserves(deck, playerHand, dealerHand);
  }

  /** The opening deal moves the top three cards: the dealer gets the top card
      and the player the next two, and no card is lost. */
  lemma OpeningConserves(deck: seq<Card>)
    requires |deck| == 52 && multiset(deck) == multiset(FullDeck())
    ensures Top(deck, 3) == [deck[51], deck[50], deck[49]]
    ensures Conserved(deck[..49], [deck[50], deck[49]], [deck[51]])
  {
    TopSplit(deck, 3);
  }

  /** A round dealt from a full deck and waiting for a bet is valid. */
  lemma OpeningDeal(deck: seq<Card>, money: int)
    requires |deck| == 52 && multiset(deck) == multiset(FullDeck()) && money > 0
    ensures Top(deck, 3) == [deck[51], deck[50], deck[49]]
    ensures Invariant(money, GameState.PlaceBet, 0, 0, deck[..49], [deck[50], deck[49]], [deck[51]])
  {
    OpeningConserves(deck);
  }

  /** A settled round is valid whatever the cards. */
  lemma SettledInvariant(money: int, bet: int, roundResult: int,
                         deck: seq<Card>, playerHand: seq<Card>, dealerHand: seq<Card>)
    requires 0 < bet <= money && (roundResult == -bet || roundResult == 0 || roundResult == bet)
    ensures Invariant(money, GameState.Stand, bet, roundResult, deck, playerHand, dealerHand)
  {
  }

  class Game {
    var round: int
    var money: int
    var phase: GameState
    var deck: seq<Card>
    var bet: int
    var roundResult: int
    var playerHand: seq<Card>
    var dealerHand: seq<Card>

    ghost predicate CardsConserved()
      reads this
    {
      Conserved(deck, playerHand, dealerHand)
    }

    /** What holds between handler calls. */
    ghost predicate Valid()
      reads this
    {
      Invariant(money, phase, bet, roundResult, deck, playerHand, dealerHand)
    }

    /** The initial values of the state cells. */
    constructor ()
      ensures Valid()
      ensures round == 1 && money == 0 && phase.OutOfMoney?
      ensures deck == [] && bet == 0 && roundResult == 0 && playerHand == [] && dealerHand == []
    {
      round := 1;
      money := 0;
      phase := GameState.OutOfMoney;
      deck := [];
      bet := 0;
      roundResult := 0;
      playerHand := [];
      dealerHand := [];
    }

    /** Settles the previous round into `m` and, unless that leaves nothing,
        deals a new round from a freshly shuffled deck. */
    method NextRound(m: int, rand: seq<int>)
      requires |rand| == 52 && DrawsBelow(rand, 52)
      modifies this
      ensures Valid()
      ensures bet == 0 && roundResult == 0
      ensures m + old(roundResult) <= 0 ==>
        money == 0 && round == 0 && phase.OutOfMoney? &&
        deck == old(deck) && playerHand == old(playerHand) && dealerHand == old(dealerHand)
      ensures m + old(roundResult) > 0 ==>
        money == m + old(roundResult) && round == old(round) + 1 && phase.PlaceBet? &&
        var shuffled := Shuffled(FullDeck(), rand);
        dealerHand == [shuffled[51]] && playerHand == [shuffled[50], shuffled[49]] &&
        deck == shuffled[..49]
      ensures m + old(roundResult) > 0 ==> |deck| == 49 && |deck| + |playerHand| + |dealerHand| == 52
    {
      var newDeck := InitializeDeck(rand);
      var newRound := round + 1;
      var previousResult := roundResult;
      roundResult := 0;
      bet := 0;

      var newPlayerMoney := m + previousResult;
      if newPlayerMoney <= 0 {
        money := 0;
        round := 0;
        phase := GameState.OutOfMoney;
        return;
      }

      var remaining, dealtCards := DealCards(newDeck, 3);
      OpeningDeal(newDeck, newPlayerMoney);
      var dealerCard := dealtCards[0];
      var playerCards := dealtCards[1..];
      assert playerCards == [newDeck[50], newDeck[49]];
      deck := remaining;
      playerHand := playerCards;
      dealerHand := [dealerCard];

      round := newRound;
      money := newPlayerMoney;
      phase := GameState.PlaceBet;
    }

    /** The "Next hand" button: enabled in the Stand phase, it settles into the current money. */
    method NextHand(rand: seq<int>)
      requires Valid() && phase.Stand?
      requires |rand| == 52 && DrawsBelow(rand, 52)
      modifies this
      ensures Valid() && bet == 0 && roundResult == 0
      // the game ends exactly when the whole bankroll was bet and lost
      ensures phase.OutOfMoney? <==> old(bet == money && roundResult == -bet)
      ensures phase.OutOfMoney? ==> money == 0 && round == 0
      ensures phase.PlaceBet? ==> money == old(money + roundResult) > 0 && round == old(round) + 1
      // an ended game deals nothing; a new round is dealt from the top of a fresh shuffled deck
      ensures phase.OutOfMoney? ==>
        deck == old(deck) && playerHand == old(playerHand) && dealerHand == old(dealerHand)
      ensures phase.PlaceBet? ==>
        var shuffled := Shuffled(FullDeck(), rand);
        dealerHand == [shuffled[51]] && playerHand == [shuffled[50], shuffled[49]] &&
        deck == shuffled[..49]
    {
      NextRound(money, rand);
    }

    /** A new game: the stake is reset to 200 and a round is dealt at once. */
    method NewGame(rand: seq<int>)
      requires Valid() && money == 0
      requires |rand| == 52 && DrawsBelow(rand, 52)
      modifies this
      ensures Valid() && phase.PlaceBet?
      ensures money == STARTING_MONEY && bet == 0 && roundResult == 0
      ensures round == old(round) + 1
      ensures |deck| == 49 && |playerHand| == 2 && |dealerHand| == 1
      // the dealer gets the top card of a fresh shuffled deck and the player the next two
      ensures var shuffled := Shuffled(FullDeck(), rand);
        dealerHand == [shuffled[51]] && playerHand == [shuffled[50], shuffled[49]] &&
        deck == shuffled[..49]
    {
      money := STARTING_MONEY;
      NextRound(STARTING_MONEY, rand);
    }

    /** The bet input, shown while a bet is being placed; it does not check the amount. */
    method SetBet(amount: int)
      requires Valid() && phase.PlaceBet?
      modifies this`bet
      ensures Valid() && bet == amount
    {
      bet := amount;
    }

    /** The "Place bet" button, enabled only for a bet in 1..money. */
    method PlaceBet()
      requires Valid() && phase.PlaceBet?
      requires 0 < bet <= money
      modifies this`phase
      ensures Valid() && phase.Play?
    {
      phase := GameState.Play;
    }

    /** Ends the player's turn with a final player score of `handScore` (the
        "Stand" button passes the player's current score; a bust hit passes the
        bust score): the dealer plays out from the deck and the round is settled.
        The deck cell is left as it was. */
    method Stand(handScore: int)
      requires phase.Play? && 0 < bet <= money && roundResult == 0
      requires |dealerHand| == 1 && |playerHand| <= 11 && CardsConserved()
      modifies this`phase, this`dealerHand, this`roundResult
      ensures Valid() && phase.Stand?
      ensures deck == old(deck)
      ensures dealerHand == DealerDraws(deck, old(dealerHand))
      ensures old(dealerHand) < dealerHand && Score(dealerHand) >= 17
      ensures roundResult == HandResult(handScore, Score(dealerHand), bet)
    {
      phase := GameState.Stand;
      DeckSuffices(deck, playerHand, dealerHand);
      var dealerScore := CalculateScore(dealerHand);
      var newDealerHand, newDealerScore := DealerTurn(deck, dealerHand, dealerScore);
      var betResult := HandResult(handScore, newDealerScore, bet);
      dealerHand := newDealerHand;
      roundResult := betResult;
    }

    /** The "Hit" button: the top card of the deck goes to the end of the player's
        hand; a bust hand ends the turn. As in the app's `hit`, the dealer then plays
        from the deck as it was before this hit. */
    method Hit()
      requires Valid() && phase.Play?
      requires deck != []
      modifies this`phase, this`deck, this`playerHand, this`dealerHand, this`roundResult
      ensures Valid()
      // one card moves from the end of the deck to the end of the player's hand
      ensures deck == old(deck)[..|old(deck)| - 1]
      ensures playerHand == old(playerHand) + [old(deck)[|old(deck)| - 1]]
      ensures Score(playerHand) <= 21 ==>
        phase.Play? && dealerHand == old(dealerHand) && roundResult == 0
      ensures Score(playerHand) > 21 ==>
        phase.Stand? && roundResult == -bet &&
        dealerHand == DealerDraws(old(deck), old(dealerHand))
      // the dealer's first drawn card is the very card that bust the player
      ensures Score(playerHand) > 21 ==>
        |dealerHand| >= 2 && dealerHand[1] == playerHand[|playerHand| - 1]
    {
      var newDeck, dealtCards := DealCards(deck, 1);
      TopOne(deck);
      var newPlayerHand := playerHand + dealtCards;
      var newPlayerScore := CalculateScore(newPlayerHand);

      // `stand` reads the cells as they were when the button was pressed, and
      // writes only phase, dealer hand and result, so it may run before the
      // hand and deck cells are written.
      if newPlayerScore > 21 {
        DeckSuffices(deck, playerHand, dealerHand);
        DealerFirstDraw(deck, dealerHand);
        Stand(newPlayerScore);
      } else {
        HitInPlay(money, bet, deck, playerHand, dealerHand);
      }
      playerHand := newPlayerHand;
      deck := newDeck;
      if newPlayerScore > 21 {
        SettledInvariant(money, bet, roundResult, deck, playerHand, dealerHand);
      }
    }

    /** Stand as evidently intended: the dealer plays out as before, and what is
        left of the deck is stored, so no card is in two places. */
    method StandCorrected(handScore: int)
      requires phase.Play? && 0 < bet <= money && roundResult == 0
      requires |dealerHand| == 1 && |playerHand| <= 11 && CardsConserved()
      modifies this`phase, this`dealerHand, this`roundResult, this`deck
      ensures Valid() && phase.Stand? && CardsConserved()
      ensures dealerHand == DealerDraws(old(deck), old(dealerHand))
      ensures old(dealerHand) < dealerHand && Score(dealerHand) >= 17
      // the cards the dealer drew are gone from the deck
      ensures |deck| + |dealerHand| == |old(deck)| + |old(dealerHand)|
      ensures deck == old(deck)[..|deck|]
      ensures roundResult == HandResult(handScore, Score(dealerHand), bet)
    {
      var held := dealerHand;
      Stand(handScore);
      DealerConserves(deck, playerHand, held, dealerHand);
      deck := deck[..|deck| - (|dealerHand| - |held|)];
    }

    /** Hit as evidently intended: the hand and deck are updated first and a bust
        settles against the deck that is left. */
    method HitCorrected()
      requires Valid() && phase.Play?
      requires deck != []
      modifies this`phase, this`deck, this`playerHand, this`dealerHand, this`roundResult
      ensures Valid() && CardsConserved()
      ensures playerHand == old(playerHand) + [old(deck)[|old(deck)| - 1]]
      ensures Score(playerHand) <= 21 ==>
        phase.Play? && deck == old(deck)[..|old(deck)| - 1] && dealerHand == old(dealerHand)
      ensures Score(playerHand) > 21 ==>
        phase.Stand? && roundResult == -bet &&
        dealerHand == DealerDraws(old(deck)[..|old(deck)| - 1], old(dealerHand))
      // on a bust the dealer's draws are cut from the end of the deck
      ensures Score(playerHand) > 21 ==> |deck| < |old(deck)| && deck == old(deck)[..|deck|]
    {
      HitConserves(deck, playerHand, dealerHand);
      var newDeck, dealtCards := DealCards(deck, 1);
      TopOne(deck);
      var newPlayerHand := playerHand + dealtCards;
      var newPlayerScore := CalculateScore(newPlayerHand);
      playerHand := newPlayerHand;
      deck := newDeck;
      if newPlayerScore > 21 {
        StandCorrected(newPlayerScore);
      }
    }
  }
}
