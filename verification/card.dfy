/** Playing cards: a closed set of 13 ranks and 4 suits, and the 52 cards they combine into. */
module Cards {
  import opened Wrappers
  import opened Sequences

  datatype Rank = Ace | Two | Three | Four | Five | Six | Seven | Eight | Nine | Ten | Jack | Queen | King

  datatype Suit = Clubs | Diamonds | Hearts | Spades

  /**
   * An immutable card; the fields are its two getters. Dafny compares cards by value while the Java
   * class keeps reference equality, and the two agree because the deck creates one object per pair.
   */
  datatype Card = Card(rank: Rank, suit: Suit)

  /** The ranks in declaration order, as `Rank.values()` lists them. */
  const Ranks: seq<Rank> := [Ace, Two, Three, Four, Five, Six, Seven, Eight, Nine, Ten, Jack, Queen, King]

  /** The suits in declaration order, as `Suit.values()` lists them. */
  const Suits: seq<Suit> := [Clubs, Diamonds, Hearts, Spades]

  /** Number of cards in a complete deck. */
  const DeckSize: nat := 52

  /** Position of a rank in `Ranks`. */
  function RankIndex(r: Rank): (i: nat)
    ensures i < |Ranks| && Ranks[i] == r
  {
    match r
    case Ace => 0
    case Two => 1
    case Three => 2
    case Four => 3
    case Five => 4
    case Six => 5
    case Seven => 6
    case Eight => 7
    case Nine => 8
    case Ten => 9
    case Jack => 10
    case Queen => 11
    case King => 12
  }

  /** Position of a suit in `Suits`. */
  function SuitIndex(s: Suit): (i: nat)
    ensures i < |Suits| && Suits[i] == s
  {
    match s
    case Clubs => 0
    case Diamonds => 1
    case Hearts => 2
    case Spades => 3
  }

  /** Position at which the deck constructor adds `c`: suits form the outer loop, ranks the inner one. */
  function CardIndex(c: Card): (i: nat)
    ensures i < DeckSize
  {
    |Ranks| * SuitIndex(c.suit) + RankIndex(c.rank)
  }

  /** `RankIndex` and `SuitIndex` are injective, so `CardIndex` is too. */
  lemma CardIndexInjective(c: Card, d: Card)
    requires CardIndex(c) == CardIndex(d)
    ensures c == d
  {
    assert SuitIndex(c.suit) == SuitIndex(d.suit);
    assert RankIndex(c.rank) == RankIndex(d.rank);
  }

  /** The card the deck constructor adds at position `i`: the inverse of `CardIndex`. */
  function CardAt(i: nat): (c: Card)
    requires i < DeckSize
    ensures CardIndex(c) == i
  {
    var s := i / |Ranks|;
    var r := i % |Ranks|;
    assert SuitIndex(Suits[s]) == s;
    assert RankIndex(Ranks[r]) == r;
    Card(Ranks[r], Suits[s])
  }

  /** The 52 cards in the order the deck constructor adds them, before shuffling. */
  function OrderedCards(): (cs: seq<Card>)
    ensures |cs| == DeckSize
    ensures forall c: Card :: cs[CardIndex(c)] == c
    ensures Distinct(cs)
  {
    var cs := seq(DeckSize, i requires 0 <= i < DeckSize => CardAt(i));
    forall c: Card ensures cs[CardIndex(c)] == c {
      CardIndexInjective(cs[CardIndex(c)], c);
    }
    assert forall i :: 0 <= i < DeckSize ==> CardIndex(cs[i]) == i;
    cs
  }

  /** Every one of the 52 rank/suit combinations occurs exactly once in the unshuffled deck. */
  lemma OrderedCardsOnce(c: Card)
    ensures multiset(OrderedCards())[c] == 1
  {
    var cs := OrderedCards();
    assert cs[CardIndex(c)] == c;
    DistinctMultiplicity(cs, c);
  }

  /** The shuffle only permutes: `shuffled` holds the 52 cards, each once, in some order. */
  ghost predicate IsShuffle(shuffled: seq<Card>) {
    multiset(shuffled) == multiset(OrderedCards())
  }

  /** A list entry that Java allows to be `null` (a hand or discard-pile entry). */
  type Slot = Option<Card>

  /** The cards actually held by a list of slots, `null` entries dropped. */
  function Present(slots: seq<Slot>): (m: multiset<Card>)
    ensures |m| <= |slots|
  {
    if slots == [] then multiset{}
    else
      var init := slots[..|slots| - 1];
      assert slots == init + [slots[|slots| - 1]];
      match slots[|slots| - 1]
      case None => Present(init)
      case Some(c) => Present(init) + multiset{c}
  }

  /** A card is held by a list of slots exactly when some slot holds it. */
  lemma {:induction false} PresentHolds(slots: seq<Slot>, c: Card)
    ensures c in Present(slots) <==> Some(c) in slots
    decreases |slots|
  {
    if slots != [] {
      var init := slots[..|slots| - 1];
      assert slots == init + [slots[|slots| - 1]];
      PresentHolds(init, c);
    }
  }

  /** The cards held by two lists put together are those of each list. */
  lemma {:induction false} PresentAppend(a: seq<Slot>, b: seq<Slot>)
    ensures Present(a + b) == Present(a) + Present(b)
    decreases |b|
  {
    if b == [] {
      assert a + b == a;
    } else {
      var binit := b[..|b| - 1];
      assert (a + b)[..|a + b| - 1] == a + binit;
      assert (a + b)[|a + b| - 1] == b[|b| - 1];
      PresentAppend(a, binit);
    }
  }
}
