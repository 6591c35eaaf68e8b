/** Deck generation, shuffling and dealing (`CardsManager`). */
module Deck {
  import opened Constants
  import opened Cards
  import opened Results

  /** The part of a card's identity that decides pairing. */
  type Key = (string, string)

  function KeyOf(c: CardData): Key {
    (c.suit, c.rank)
  }

  /** The number of distinct (suit, rank) combinations. */
  const FACES: nat := |SUITS| * |RANKS|

  /** The (suit, rank) of the p-th pair of the generated deck. */
  function PairKey(p: nat): Key
    requires p < FACES
  {
    (SUITS[p / |RANKS|], RANKS[p % |RANKS|])
  }

  /** The k-th card the generator emits: suit-major, then rank, two copies
      each, with ids counting up from 0. */
  function DeckCard(k: nat): CardData
    requires k < DECK_SIZE
  {
    CardData(k, SUITS[k / (COPIES_PER_FACE * |RANKS|)], RANKS[(k / COPIES_PER_FACE) % |RANKS|])
  }

  /** The generated deck as a whole. */
  function FullDeck(): (d: seq<CardData>)
    ensures |d| == DECK_SIZE
    ensures forall k :: 0 <= k < DECK_SIZE ==> d[k] == DeckCard(k)
  {
    seq(DECK_SIZE, k requires 0 <= k < DECK_SIZE => DeckCard(k))
  }

  lemma DeckCardAt(s: nat, r: nat, i: nat)
    requires s < |SUITS| && r < |RANKS| && i < COPIES_PER_FACE
    ensures s * 26 + r * 2 + i < DECK_SIZE
    ensures DeckCard(s * 26 + r * 2 + i) == CardData(s * 26 + r * 2 + i, SUITS[s], RANKS[r])
  {
    var k := s * 26 + r * 2 + i;
    assert k / 26 == s;
    assert k / 2 == s * 13 + r;
    assert (k / 2) % 13 == r;
  }

  /** `GenerateUniqueRandomCards`: for every suit, for every rank, two cards,
      numbering them as they are made. The result is the full deck. */
  method GenerateUniqueRandomCards() returns (deck: seq<CardData>)
    ensures |deck| == |SUITS| * |RANKS| * COPIES_PER_FACE
    ensures forall k :: 0 <= k < |deck| ==> deck[k].id == k
    ensures deck == FullDeck()
  {
    var id := 0;
    deck := [];
    var s := 0;
    while s < |SUITS|
      invariant 0 <= s <= |SUITS|
      invariant id == |deck| == s * 26
      invariant forall k :: 0 <= k < |deck| ==> deck[k] == DeckCard(k)
    {
      var r := 0;
      while r < |RANKS|
        invariant 0 <= r <= |RANKS|
        invariant id == |deck| == s * 26 + r * 2
        invariant forall k :: 0 <= k < |deck| ==> deck[k] == DeckCard(k)
      {
        var i := 0;
        while i < COPIES_PER_FACE
          invariant 0 <= i <= COPIES_PER_FACE
          invariant id == |deck| == s * 26 + r * 2 + i
          invariant forall k :: 0 <= k < |deck| ==> deck[k] == DeckCard(k)
        {
          DeckCardAt(s, r, i);
          deck := deck + [CardData(id, SUITS[s], RANKS[r])];
          id := id + 1;
          i := i + 1;
        }
        r := r + 1;
      }
      s := s + 1;
    }
  }

  lemma PairKeyInjective(p: nat, q: nat)
    requires p < FACES && q < FACES && p != q
    ensures PairKey(p) != PairKey(q)
  {
    CatalogueShape();
    if p / 13 == q / 13 {
      assert p % 13 != q % 13;
      assert RANKS[p % 13] != RANKS[q % 13];
    } else {
      assert SUITS[p / 13] != SUITS[q / 13];
    }
  }

  /** Deck positions 2p and 2p+1 hold the two copies of the p-th face. */
  lemma DeckPairAt(p: nat)
    requires p < FACES
    ensures 2 * p + 1 < DECK_SIZE
    ensures KeyOf(DeckCard(2 * p)) == PairKey(p)
    ensures KeyOf(DeckCard(2 * p + 1)) == PairKey(p)
  {
    assert (2 * p) / 26 == p / 13;
    assert (2 * p + 1) / 26 == p / 13;
  }

  /** Two generated cards match exactly when they are the two halves of the
      same adjacent pair. */
  lemma DeckMatchesArePartners(i: nat, j: nat)
    requires i < DECK_SIZE && j < DECK_SIZE
    ensures Matches(DeckCard(i), DeckCard(j)) <==> i != j && i / 2 == j / 2
  {
    DeckPairAt(i / 2);
    DeckPairAt(j / 2);
    assert KeyOf(DeckCard(i)) == PairKey(i / 2) by {
      assert i == 2 * (i / 2) || i == 2 * (i / 2) + 1;
    }
    assert KeyOf(DeckCard(j)) == PairKey(j / 2) by {
      assert j == 2 * (j / 2) || j == 2 * (j / 2) + 1;
    }
    if i / 2 != j / 2 {
      PairKeyInjective(i / 2, j / 2);
    }
  }

  /** How many cards of `cs` show `key`. */
  function Count(cs: seq<CardData>, key: Key): (n: nat)
    ensures n <= |cs|
  {
    if |cs| == 0 then 0 else (if KeyOf(cs[0]) == key then 1 else 0) + Count(cs[1..], key)
  }

  lemma {:induction false} CountAppend(a: seq<CardData>, b: seq<CardData>, key: Key)
    ensures Count(a + b, key) == Count(a, key) + Count(b, key)
    decreases |a|
  {
    if |a| == 0 {
      assert a + b == b;
    } else {
      assert (a + b)[1..] == a[1..] + b;
      CountAppend(a[1..], b, key);
    }
  }

  /** Reordering cards does not change how often a face occurs. */
  lemma {:induction false} CountOfPermutation(a: seq<CardData>, b: seq<CardData>, key: Key)
    requires multiset(a) == multiset(b)
    ensures Count(a, key) == Count(b, key)
    decreases |a|
  {
    if |a| == 0 {
      assert |b| == |multiset(b)| == 0;
    } else {
      var x := a[0];
      assert x in multiset(b);
      var j :| 0 <= j < |b| && b[j] == x;
      var rest := b[..j] + b[j + 1..];
      assert b == b[..j] + [x] + b[j + 1..];
      assert a == [x] + a[1..];
      assert multiset(b) == multiset(b[..j]) + multiset{x} + multiset(b[j + 1..]);
      assert multiset(rest) == multiset(b[..j]) + multiset(b[j + 1..]);
      assert multiset(a) == multiset{x} + multiset(a[1..]);
      assert multiset(a[1..]) == multiset(a) - multiset{x};
      assert multiset(rest) == multiset(b) - multiset{x};
      CountOfPermutation(a[1..], rest, key);
      CountAppend(b[..j] + [x], b[j + 1..], key);
      CountAppend(b[..j], [x], key);
      CountAppend(b[..j], b[j + 1..], key);
      CountAppend([x], a[1..], key);
    }
  }

  /** A card whose face occurs at least twice has a twin at another index. */
  lemma CountWitness(s: seq<CardData>, i: nat)
    requires i < |s| && Count(s, KeyOf(s[i])) >= 2
    ensures exists j :: 0 <= j < |s| && j != i && KeyOf(s[j]) == KeyOf(s[i])
  {
    var key := KeyOf(s[i]);
    assert s == s[..i] + [s[i]] + s[i + 1..];
    CountAppend(s[..i] + [s[i]], s[i + 1..], key);
    CountAppend(s[..i], [s[i]], key);
    if Count(s[..i], key) > 0 {
      var j := CountPositive(s[..i], key);
      assert s[j] == s[..i][j];
    } else {
      var j := CountPositive(s[i + 1..], key);
      assert s[i + 1 + j] == s[i + 1..][j];
    }
  }

  lemma {:induction false} CountPositive(s: seq<CardData>, key: Key) returns (j: nat)
    requires Count(s, key) > 0
    ensures j < |s| && KeyOf(s[j]) == key
    decreases |s|
  {
    if KeyOf(s[0]) == key {
      j := 0;
    } else {
      var j' := CountPositive(s[1..], key);
      j := j' + 1;
    }
  }

  /** An even-length prefix of the deck holds whole pairs: a face occurs in
      it twice if its pair lies in the prefix, and not at all otherwise. */
  lemma {:induction false} PrefixCount(m: nat, key: Key)
    requires m <= FACES
    ensures var c := Count(FullDeck()[..2 * m], key);
      (c == 0 || c == 2) && (c == 2 <==> exists p :: 0 <= p < m && PairKey(p) == key)
  {
    var d := FullDeck();
    if m > 0 {
      PrefixCount(m - 1, key);
      var p := m - 1;
      DeckPairAt(p);
      assert d[..2 * m] == d[..2 * p] + [d[2 * p], d[2 * p + 1]];
      CountAppend(d[..2 * p], [d[2 * p], d[2 * p + 1]], key);
      assert Count([d[2 * p], d[2 * p + 1]], key) == if PairKey(p) == key then 2 else 0;
      if PairKey(p) == key {
        forall q | 0 <= q < p
          ensures PairKey(q) != key
        {
          PairKeyInjective(q, p);
        }
      }
    }
  }

  /** Every (suit, rank) of the catalogue occurs exactly twice in the deck. */
  lemma EachFaceTwice(s: nat, r: nat)
    requires s < |SUITS| && r < |RANKS|
    ensures Count(FullDeck(), (SUITS[s], RANKS[r])) == 2
  {
    CatalogueShape();
    var key := (SUITS[s], RANKS[r]);
    var p := s * 13 + r;
    assert p / 13 == s && p % 13 == r;
    assert p < FACES && PairKey(p) == key;
    PrefixCount(FACES, key);
    assert 2 * FACES == |FullDeck()|;
    assert FullDeck()[..2 * FACES] == FullDeck();
  }

  /** The random draws a shuffle of `n` cards consumes: draw i stands for
      `Random.Range(i, n)`, an index in [i, n). */
  predicate IsDraw(picks: seq<int>, n: int) {
    |picks| == n && forall i :: 0 <= i < n ==> i <= picks[i] < n
  }

  predicate DistinctIds(cs: seq<CardData>) {
    forall i, j :: 0 <= i < j < |cs| ==> cs[i].id != cs[j].id
  }

  function Swap(s: seq<CardData>, i: nat, j: nat): (r: seq<CardData>)
    requires i < |s| && j < |s|
    ensures |r| == |s| && r[i] == s[j] && r[j] == s[i]
    ensures forall k :: 0 <= k < |s| && k != i && k != j ==> r[k] == s[k]
    ensures multiset(r) == multiset(s)
    ensures DistinctIds(s) ==> DistinctIds(r)
  {
    var temp := s[i];
    s[i := s[j]][j := temp]
  }

  /** The shuffle from step `i` on: swap position i with the drawn position,
      then carry on with the next step. */
  function ShuffleFrom(s: seq<CardData>, picks: seq<int>, i: nat): (r: seq<CardData>)
    requires IsDraw(picks, |s|) && i <= |s|
    ensures |r| == |s| && multiset(r) == multiset(s)
    ensures DistinctIds(s) ==> DistinctIds(r)
    decreases |s| - i
  {
    if i == |s| then s else ShuffleFrom(Swap(s, i, picks[i]), picks, i + 1)
  }

  function Shuffle(s: seq<CardData>, picks: seq<int>): (r: seq<CardData>)
    requires IsDraw(picks, |s|)
    ensures |r| == |s| && multiset(r) == multiset(s)
    ensures DistinctIds(s) ==> DistinctIds(r)
  {
    ShuffleFrom(s, picks, 0)
  }

  /** `ShuffleCardsData`: the in-place swap loop. It computes `Shuffle`, so it
      returns a permutation of its input. */
  method ShuffleCardsData(deck: seq<CardData>, picks: seq<int>) returns (shuffled: seq<CardData>)
    requires IsDraw(picks, |deck|)
    ensures shuffled == Shuffle(deck, picks)
    ensures |shuffled| == |deck| && multiset(shuffled) == multiset(deck)
  {
    shuffled := deck;
    var i := 0;
    while i < |shuffled|
      invariant |shuffled| == |deck| && 0 <= i <= |shuffled|
      invariant ShuffleFrom(shuffled, picks, i) == Shuffle(deck, picks)
    {
      var temp := shuffled[i];
      var randomIndex := picks[i];
      shuffled := shuffled[i := shuffled[randomIndex]];
      shuffled := shuffled[randomIndex := temp];
      i := i + 1;
    }
  }

  /** `GetRange(0, n)` throws when `n` is negative or exceeds the deck. */
  datatype DealError = InvalidGridSize

  function Identities(cards: seq<Card>): (ids: seq<CardData>)
    ensures |ids| == |cards|
    ensures forall k :: 0 <= k < |cards| ==> ids[k] == cards[k].data
  {
    seq(|cards|, k requires 0 <= k < |cards| => cards[k].data)
  }

  /** `CardsManager`'s constructor: generate the deck, take its first
      `cardsCount` cards, shuffle them, and lay them out face down. */
  function Deal(cardsCount: int, picks: seq<int>): (r: Result<seq<Card>, DealError>)
    requires 0 <= cardsCount <= DECK_SIZE ==> IsDraw(picks, cardsCount)
    ensures r.Failure? <==> cardsCount < 0 || DECK_SIZE < cardsCount
    ensures r.Success? ==> |r.value| == cardsCount
    ensures r.Success? ==> forall k :: 0 <= k < |r.value| ==> r.value[k].face == BackFace && r.value[k].active
    ensures r.Success? ==> Identities(r.value) == Shuffle(FullDeck()[..cardsCount], picks)
    ensures r.Success? ==> multiset(Identities(r.value)) == multiset(FullDeck()[..cardsCount])
  {
    if cardsCount < 0 || DECK_SIZE < cardsCount then
      Failure(InvalidGridSize)
    else
      var gridCards := Shuffle(FullDeck()[..cardsCount], picks);
      Success(seq(|gridCards|, k requires 0 <= k < |gridCards| => Instantiate(gridCards[k])))
  }

  lemma CountSplit(s: seq<CardData>, i: nat, key: Key)
    requires i < |s|
    ensures Count(s, key) == Count(s[..i], key) + (if KeyOf(s[i]) == key then 1 else 0) + Count(s[i + 1..], key)
  {
    assert s == s[..i] + [s[i]] + s[i + 1..];
    CountAppend(s[..i] + [s[i]], s[i + 1..], key);
    CountAppend(s[..i], [s[i]], key);
  }

  lemma PrefixHasDistinctIds(n: nat)
    requires n <= DECK_SIZE
    ensures DistinctIds(FullDeck()[..n])
  {
    var prefix := FullDeck()[..n];
    forall i, j | 0 <= i < j < |prefix|
      ensures prefix[i].id != prefix[j].id
    {
      assert prefix[i] == DeckCard(i) && prefix[j] == DeckCard(j);
    }
  }

  /** Some other card of `g` matches `g[i]`. */
  predicate HasPartner(g: seq<CardData>, i: int)
    requires 0 <= i < |g|
  {
    exists j :: 0 <= j < |g| && Matches(g[i], g[j])
  }

  /** In a hand of distinct cards where every face occurs zero or two times,
      every card has a partner. */
  lemma PairedFacesHavePartners(g: seq<CardData>)
    requires DistinctIds(g)
    requires forall key :: Count(g, key) == 0 || Count(g, key) == 2
    ensures forall i :: 0 <= i < |g| ==> HasPartner(g, i)
  {
    forall i | 0 <= i < |g|
      ensures HasPartner(g, i)
    {
      var j := PartnerOf(g, i);
      assert 0 <= j < |g| && Matches(g[i], g[j]);
    }
  }

  lemma PartnerOf(g: seq<CardData>, i: nat) returns (j: nat)
    requires DistinctIds(g) && i < |g|
    requires Count(g, KeyOf(g[i])) == 0 || Count(g, KeyOf(g[i])) == 2
    ensures j < |g| && Matches(g[i], g[j])
  {
    CountSplit(g, i, KeyOf(g[i]));
    CountWitness(g, i);
    j :| 0 <= j < |g| && j != i && KeyOf(g[j]) == KeyOf(g[i]);
    if i < j {
      assert g[i].id != g[j].id;
    } else {
      assert g[j].id != g[i].id;
    }
  }

  /** With an even number of cards every dealt face occurs exactly twice, so
      every dealt card has a partner it matches. */
  lemma DealtCardsArePaired(cardsCount: nat, picks: seq<int>)
    requires cardsCount <= DECK_SIZE && cardsCount % 2 == 0
    requires IsDraw(picks, cardsCount)
    ensures Deal(cardsCount, picks).Success?
    ensures var g := Identities(Deal(cardsCount, picks).value);
      && (forall key :: Count(g, key) == 0 || Count(g, key) == 2)
      && (forall i :: 0 <= i < |g| ==> HasPartner(g, i))
  {
    var prefix := FullDeck()[..cardsCount];
    var g := Identities(Deal(cardsCount, picks).value);
    assert g == Shuffle(prefix, picks);
    assert 2 * (cardsCount / 2) == cardsCount;
    forall key
      ensures Count(g, key) == 0 || Count(g, key) == 2
    {
      CountOfPermutation(g, prefix, key);
      PrefixCount(cardsCount / 2, key);
    }
    PrefixHasDistinctIds(cardsCount);
    PairedFacesHavePartners(g);
  }

  /** With an odd number of cards the last card of the prefix is dealt
      without its twin: some face occurs exactly once on the board. */
  lemma OddDealLeavesOneFaceUnpaired(cardsCount: nat, picks: seq<int>)
    requires cardsCount <= DECK_SIZE && cardsCount % 2 == 1
    requires IsDraw(picks, cardsCount)
    ensures Deal(cardsCount, picks).Success?
    ensures exists key :: Count(Identities(Deal(cardsCount, picks).value), key) == 1
  {
    CatalogueShape();
    var m := cardsCount / 2;
    assert cardsCount == 2 * m + 1 && m < FACES;
    var d := FullDeck();
    var prefix := d[..cardsCount];
    var key := PairKey(m);
    DeckPairAt(m);
    assert prefix == d[..2 * m] + [d[2 * m]];
    CountAppend(d[..2 * m], [d[2 * m]], key);
    PrefixCount(m, key);
    forall p | 0 <= p < m
      ensures PairKey(p) != key
    {
      PairKeyInjective(p, m);
    }
    var g := Identities(Deal(cardsCount, picks).value);
    CountOfPermutation(g, prefix, key);
  }
}
