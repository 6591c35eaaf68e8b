/** What `CardsManager` does to the cards already on the board. */
module Grid {
  import opened Cards

  /** `CardsManager.OnMatchFound`: deactivate the two matched cards. */
  function OnMatchFound(cards: seq<Card>, first: nat, second: nat): (r: seq<Card>)
    requires first < |cards| && second < |cards|
    ensures |r| == |cards|
    ensures forall k :: 0 <= k < |r| ==> r[k].data == cards[k].data && r[k].face == cards[k].face
    ensures forall k :: 0 <= k < |r| ==> r[k].active == (cards[k].active && k != first && k != second)
  {
    var once := cards[first := cards[first].(active := false)];
    once[second := once[second].(active := false)]
  }

  /** `CardsManager.OnNoMatch`: flip both cards (back face down). Passing the
      same card twice flips it twice. */
  function OnNoMatch(cards: seq<Card>, first: nat, second: nat): (r: seq<Card>)
    requires first < |cards| && second < |cards|
    ensures |r| == |cards|
    ensures forall k :: 0 <= k < |r| ==> r[k].data == cards[k].data && r[k].active == cards[k].active
    ensures forall k :: 0 <= k < |r| ==>
      r[k].face == (if (k == first) != (k == second) then Opposite(cards[k].face) else cards[k].face)
  {
    var once := cards[first := FlipCard(cards[first]).0];
    once[second := FlipCard(once[second]).0]
  }

  /** Undoing a no-match flip: flipping the same two cards again restores the board. */
  lemma NoMatchTwiceRestores(cards: seq<Card>, first: nat, second: nat)
    requires first < |cards| && second < |cards|
    ensures OnNoMatch(OnNoMatch(cards, first, second), first, second) == cards
  {
    var twice := OnNoMatch(OnNoMatch(cards, first, second), first, second);
    forall k | 0 <= k < |cards|
      ensures twice[k] == cards[k]
    {
    }
  }

  /** `CardsManager.RevealAllUnMatchedHiddenCards` from position `k` on:
      hint-flip every active, face-down card, reporting which were flipped. */
  function HintFrom(cards: seq<Card>, k: nat): (r: (seq<Card>, seq<nat>))
    requires k <= |cards|
    ensures r.0 == cards
    ensures forall n :: n in r.1 <==> k <= n < |cards| && cards[n].active && cards[n].face == BackFace
    ensures forall a, b :: 0 <= a < b < |r.1| ==> r.1[a] < r.1[b]
    decreases |cards| - k
  {
    if k == |cards| then
      (cards, [])
    else if cards[k].face == BackFace && cards[k].active then
      var (hinted, _) := FlipCardForHint(cards[k]);
      var rest := HintFrom(cards[k := hinted], k + 1);
      assert forall b :: 0 <= b < |rest.1| ==> rest.1[b] in rest.1 && k < rest.1[b];
      (rest.0, [k] + rest.1)
    else
      HintFrom(cards, k + 1)
  }

  /** Hint-flip every active face-down card, in board order; no card's state changes. */
  function RevealAllUnMatchedHiddenCards(cards: seq<Card>): (r: (seq<Card>, seq<nat>))
    ensures r.0 == cards
    ensures forall n :: n in r.1 <==> 0 <= n < |cards| && cards[n].active && cards[n].face == BackFace
    ensures forall a, b :: 0 <= a < b < |r.1| ==> r.1[a] < r.1[b]
  {
    HintFrom(cards, 0)
  }

  /** `GameResultEvaluator.CheckForGameFinish`: stop at the first active card. */
  function CheckForGameFinish(cards: seq<Card>): (finished: bool)
    ensures finished <==> forall k :: 0 <= k < |cards| ==> !cards[k].active
  {
    if |cards| == 0 then true
    else if cards[0].active then false
    else
      var rest := CheckForGameFinish(cards[1..]);
      assert forall k :: 1 <= k < |cards| ==> cards[k] == cards[1..][k - 1];
      rest
  }

  /** The number of matched (inactive) cards. */
  function InactiveCount(cards: seq<Card>): (n: nat)
    ensures n <= |cards|
  {
    if |cards| == 0 then 0 else (if cards[0].active then 0 else 1) + InactiveCount(cards[1..])
  }

  /** Only the active flags decide the inactive count. */
  lemma {:induction false} InactiveCountOfFlags(a: seq<Card>, b: seq<Card>)
    requires |a| == |b|
    requires forall k :: 0 <= k < |a| ==> a[k].active == b[k].active
    ensures InactiveCount(a) == InactiveCount(b)
    decreases |a|
  {
    if |a| > 0 {
      InactiveCountOfFlags(a[1..], b[1..]);
    }
  }

  /** Deactivating one active card adds one to the inactive count. */
  lemma {:induction false} InactiveCountDeactivate(cards: seq<Card>, i: nat)
    requires i < |cards| && cards[i].active
    ensures InactiveCount(cards[i := cards[i].(active := false)]) == InactiveCount(cards) + 1
    decreases |cards|
  {
    var after := cards[i := cards[i].(active := false)];
    if i > 0 {
      assert after[1..] == cards[1..][i - 1 := cards[i].(active := false)];
      InactiveCountDeactivate(cards[1..], i - 1);
    } else {
      InactiveCountOfFlags(after[1..], cards[1..]);
    }
  }

  /** The game is over exactly when every card has been matched. */
  lemma {:induction false} FinishedIffAllInactive(cards: seq<Card>)
    ensures CheckForGameFinish(cards) <==> InactiveCount(cards) == |cards|
    decreases |cards|
  {
    if |cards| > 0 {
      FinishedIffAllInactive(cards[1..]);
      assert forall k :: 1 <= k < |cards| ==> cards[k] == cards[1..][k - 1];
    }
  }

  /** A match of two distinct active cards adds two to the inactive count;
      a no-match leaves it unchanged. */
  lemma MatchAndNoMatchCounts(cards: seq<Card>, first: nat, second: nat)
    requires first < |cards| && second < |cards|
    ensures InactiveCount(OnNoMatch(cards, first, second)) == InactiveCount(cards)
    ensures first != second && cards[first].active && cards[second].active ==>
      InactiveCount(OnMatchFound(cards, first, second)) == InactiveCount(cards) + 2
  {
    InactiveCountOfFlags(OnNoMatch(cards, first, second), cards);
    if first != second && cards[first].active && cards[second].active {
      var once := cards[first := cards[first].(active := false)];
      InactiveCountDeactivate(cards, first);
      InactiveCountDeactivate(once, second);
      assert OnMatchFound(cards, first, second) == once[second := once[second].(active := false)];
    }
  }
}
