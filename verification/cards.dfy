/** One card: its identity (`CardData`), its face and whether its game object
    is still active. Sprites, tweens and rotations are presentation only. */
module Cards {
  /** A card's identity. `id` is unique within a deck; `suit` and `rank`
      decide whether two cards form a pair. */
  datatype CardData = CardData(id: int, suit: string, rank: string)

  datatype CardFace = FrontFace | BackFace

  /** A card object on the board. `active` is the game object's active flag:
      it turns false when the card is matched, and an inactive card no longer
      receives clicks. */
  datatype Card = Card(data: CardData, face: CardFace, active: bool)

  /** The notifications a card sends to its card-event listeners. */
  datatype CardEvent = Clicked | Flipped | FaceUpFinished | FaceDownFinished

  /** `CardData.Equals`: two different cards showing the same suit and rank.
      Unlike value equality it never relates a card data to itself. */
  predicate Matches(a: CardData, b: CardData): (r: bool)
    ensures r ==> a != b
  {
    a.id != b.id && a.suit == b.suit && a.rank == b.rank
  }

  /** A card never matches itself. */
  lemma MatchIsIrreflexive(a: CardData)
    ensures !Matches(a, a)
  {
  }

  /** The order in which two cards are compared does not matter. */
  lemma MatchIsSymmetric(a: CardData, b: CardData)
    ensures Matches(a, b) <==> Matches(b, a)
  {
  }

  function Opposite(f: CardFace): (r: CardFace)
    ensures r != f
  {
    if f == FrontFace then BackFace else FrontFace
  }

  /** `Card.Init`: give the card its identity and turn it face down. */
  function Init(c: Card, data: CardData): (r: Card)
    ensures r.data == data && r.face == BackFace
    ensures r.active == c.active
  {
    Card(data, BackFace, c.active)
  }

  /** A fresh card object from the prefab, initialised with `data`. */
  function Instantiate(data: CardData): (r: Card)
    ensures r.data == data && r.face == BackFace && r.active
  {
    Init(Card(data, FrontFace, true), data)
  }

  /** `Card.FlipCard`: toggle the face, then (when the flip animation ends)
      report the flip and the face the card now shows. */
  function FlipCard(c: Card): (r: (Card, seq<CardEvent>))
    ensures r.0.face == Opposite(c.face)
    ensures r.0.data == c.data && r.0.active == c.active
    ensures r.1 == [Flipped, if r.0.face == FrontFace then FaceUpFinished else FaceDownFinished]
  {
    var flipped := c.(face := if c.face == BackFace then FrontFace else BackFace);
    (flipped, [Flipped, if flipped.face == FrontFace then FaceUpFinished else FaceDownFinished])
  }

  /** Two flips bring a card back to where it was. */
  lemma FlipCardTwice(c: Card)
    ensures FlipCard(FlipCard(c).0).0 == c
  {
  }

  /** `Card.OnCardClicked`: a click acts only on a face-down card, which it
      reports as clicked and flips face up. */
  function OnCardClicked(c: Card): (r: (Card, seq<CardEvent>))
    ensures c.face == BackFace ==> r.0 == c.(face := FrontFace) && r.1 == [Clicked, Flipped, FaceUpFinished]
    ensures c.face == FrontFace ==> r == (c, [])
  {
    if c.face == BackFace then
      var (flipped, events) := FlipCard(c);
      (flipped, [Clicked] + events)
    else
      (c, [])
  }

  /** A click turns a card face up exactly when it was face down, and a
      second click on the same card does nothing. */
  lemma ClickRevealsOnlyHiddenCards(c: Card)
    ensures FaceUpFinished in OnCardClicked(c).1 <==> c.face == BackFace
    ensures OnCardClicked(c).0.face == FrontFace
    ensures OnCardClicked(OnCardClicked(c).0) == (OnCardClicked(c).0, [])
  {
  }

  /** `Card.FlipCardForHint`: the card turns face up and back down on screen
      only. `CurrentFace` is untouched and no listener hears about it. */
  function FlipCardForHint(c: Card): (r: (Card, seq<CardEvent>))
    ensures r.0 == c && r.1 == []
  {
    (c, [])
  }

  /** `Card.SetCardFrontFacing`: show the front at once, announcing a click
      and a finished face-up flip (the latter is what the evaluator hears). */
  function SetCardFrontFacing(c: Card): (r: (Card, seq<CardEvent>))
    ensures r.0 == c.(face := FrontFace)
    ensures r.1 == [Clicked, FaceUpFinished]
  {
    (Card(c.data, FrontFace, c.active), [Clicked, FaceUpFinished])
  }
}
