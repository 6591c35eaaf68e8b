/** The card catalogue and the screen identifiers shared across the game. */
module Constants {
  /** Suit names, in the order the deck is generated. */
  const SUITS: seq<string> := ["hearts", "diamonds", "clubs", "spades"]

  /** Rank names, in the order the deck is generated. */
  const RANKS: seq<string> := ["A", "02", "03", "04", "05", "06", "07", "08", "09", "10", "J", "Q", "K"]

  /** Two cards of every (suit, rank) combination. */
  const COPIES_PER_FACE: nat := 2

  /** The number of cards the deck generator produces. */
  const DECK_SIZE: nat := |SUITS| * |RANKS| * COPIES_PER_FACE

  const HOME_SCREEN: int := 0
  const GAME_COMPLETE_POPUP: int := 1
  const NO_SAVED_GAME_POPUP: int := 2

  predicate Distinct<T(==)>(s: seq<T>) {
    forall i, j :: 0 <= i < j < |s| ==> s[i] != s[j]
  }

  /** The catalogue has four distinct suits and thirteen distinct ranks, so
      the full deck holds 104 cards. */
  lemma CatalogueShape()
    ensures |SUITS| == 4 && Distinct(SUITS)
    ensures SUITS[0] == "hearts" && SUITS[1] == "diamonds" && SUITS[2] == "clubs" && SUITS[3] == "spades"
    ensures |RANKS| == 13 && Distinct(RANKS)
    ensures RANKS[0] == "A" && RANKS[10] == "J" && RANKS[11] == "Q" && RANKS[12] == "K"
    ensures DECK_SIZE == 104
  {
  }

  /** The three screen identifiers name three different screens. */
  lemma ScreenIdsDistinct()
    ensures HOME_SCREEN != GAME_COMPLETE_POPUP
    ensures HOME_SCREEN != NO_SAVED_GAME_POPUP
    ensures GAME_COMPLETE_POPUP != NO_SAVED_GAME_POPUP
  {
  }
}
