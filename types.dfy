/** The value types shared by the deck, the rules and the round engine:
    suits, card values, the card record and the phases of a round. */
module Types {

  /** The four suits, in the order they are declared. */
  datatype Suit = Club | Spade | Heart | Diamond

  /** The face value of a numeric rank. */
  type PipValue = n: int | 2 <= n <= 10 witness 2

  /** The thirteen ranks: a numeric rank carries its face value, the others are symbolic. */
  datatype CardValue = Number(face: PipValue) | Jack | Queen | King | Ace

  /** A card has no identity beyond its suit and value. */
  datatype Card = Card(suit: Suit, value: CardValue)

  /** The phase of a round, which decides what the player may do. */
  datatype GameState = OutOfMoney | PlaceBet | Play | Stand

  /** Every suit once, in declaration order. */
  const SUITS: seq<Suit> := [Club, Spade, Heart, Diamond]

  /** Every value once, in declaration order. */
  const VALUES: seq<CardValue> :=
    [Number(2), Number(3), Number(4), Number(5), Number(6), Number(7), Number(8),
     Number(9), Number(10), Jack, Queen, King, Ace]

  /** No element occurs twice. */
  predicate Distinct<T(==)>(s: seq<T>) {
    forall i, j :: 0 <= i < j < |s| ==> s[i] != s[j]
  }

  /** The enumerations are complete and list each member once. */
  lemma EnumerationsComplete(c: Card)
    ensures c.suit in SUITS && c.value in VALUES
    ensures Distinct(SUITS) && Distinct(VALUES)
    ensures |SUITS| == 4 && |VALUES| == 13
  {
    match c.suit {
      case Club => assert SUITS[0] == c.suit;
      case Spade => assert SUITS[1] == c.suit;
      case Heart => assert SUITS[2] == c.suit;
      case Diamond => assert SUITS[3] == c.suit;
    }
    match c.value
    case Number(n) =>
      assert n in {2, 3, 4, 5, 6, 7, 8, 9, 10};
      if n == 2 { assert VALUES[0] == c.value; }
      else if n == 3 { assert VALUES[1] == c.value; }
      else if n == 4 { assert VALUES[2] == c.value; }
      else if n == 5 { assert VALUES[3] == c.value; }
      else if n == 6 { assert VALUES[4] == c.value; }
      else if n == 7 { assert VALUES[5] == c.value; }
      else if n == 8 { assert VALUES[6] == c.value; }
      else if n == 9 { assert VALUES[7] == c.value; }
      else { assert VALUES[8] == c.value; }
    case Jack => assert VALUES[9] == c.value;
    case Queen => assert VALUES[10] == c.value;
    case King => assert VALUES[11] == c.value;
    case Ace => assert VALUES[12] == c.value;
  }
}
