/** Power-ups (`PowerUp`, `RevealAllCardsPowerUp`) and the registry that
    spends them (`PowerUpManager`). */
module PowerUps {
  import opened Cards
  import opened Listeners
  import Grid

  /** The only power-up kind. Each instance is bound to the session's cards
      manager, which here is the card list passed to `Activate`. The code
      compares power-ups by reference and every one is a separate object;
      here they are values, so all reveal power-ups are equal. The registry
      only ever removes its head, where the two notions agree; an
      "unregistered" power-up can only arise here when the list is empty. */
  datatype PowerUp = RevealAllCards

  function PowerUpName(p: PowerUp): (name: string)
    ensures p == RevealAllCards ==> name == "Reveal All Cards"
  {
    match p
    case RevealAllCards => "Reveal All Cards"
  }

  /** `RevealAllCardsPowerUp.Activate`: a hint reveal of every active,
      face-down card. The board itself is left as it was. */
  function Activate(p: PowerUp, cards: seq<Card>): (r: (seq<Card>, seq<nat>))
    ensures r.0 == cards
    ensures forall n :: n in r.1 <==> 0 <= n < |cards| && cards[n].active && cards[n].face == BackFace
  {
    match p
    case RevealAllCards => Grid.RevealAllUnMatchedHiddenCards(cards)
  }

  /** `PowerUp.Deactivate`: the inherited no-op. */
  function Deactivate(p: PowerUp, cards: seq<Card>): (r: seq<Card>)
    ensures r == cards
  {
    cards
  }

  datatype PowerUpManager = PowerUpManager(active: seq<PowerUp>)

  /** `Init`: adopt the given list wholesale. */
  function Init(m: PowerUpManager, powerUps: seq<PowerUp>): (r: PowerUpManager)
    ensures r.active == powerUps && PowerUpCount(r) == |powerUps|
  {
    PowerUpManager(powerUps)
  }

  /** `PowerUpCount`: the number of power-ups still to spend. */
  function PowerUpCount(m: PowerUpManager): (n: nat)
    ensures n == |m.active|
  {
    |m.active|
  }

  /** `DeactivatePowerUp`: if `p` is still registered, deactivate it and
      remove its first registration. */
  function DeactivatePowerUp(m: PowerUpManager, p: PowerUp, cards: seq<Card>): (r: (PowerUpManager, seq<Card>))
    ensures r.1 == cards
    ensures p !in m.active ==> r.0 == m
    ensures p in m.active ==> DroppedFirst(m.active, p, r.0.active)
  {
    if p in m.active then
      (PowerUpManager(RemoveFirst(m.active, p)), Deactivate(p, cards))
    else
      (m, cards)
  }

  /** `ActivatePowerUp`: with none left, nothing happens; otherwise the head
      power-up fires (a hint reveal) and is removed, the rest keep their order. */
  function ActivatePowerUp(m: PowerUpManager, cards: seq<Card>): (r: (PowerUpManager, seq<Card>, seq<nat>))
    ensures r.1 == cards
    ensures |m.active| == 0 ==> r == (m, cards, [])
    ensures |m.active| > 0 ==> r.0.active == m.active[1..] && PowerUpCount(r.0) == PowerUpCount(m) - 1
    ensures |m.active| > 0 ==> forall n :: n in r.2 <==> 0 <= n < |cards| && cards[n].active && cards[n].face == BackFace
  {
    if |m.active| <= 0 then
      (m, cards, [])
    else
      var powerUp := m.active[0];
      var (afterActivate, hinted) := Activate(powerUp, cards);
      var (next, afterDeactivate) := DeactivatePowerUp(m, powerUp, afterActivate);
      assert next.active == m.active[1..] by {
        var k :| 0 <= k < |m.active| && m.active[k] == powerUp && powerUp !in m.active[..k]
          && next.active == m.active[..k] + m.active[k + 1..];
        assert k == 0;
      }
      (next, afterDeactivate, hinted)
  }
}
