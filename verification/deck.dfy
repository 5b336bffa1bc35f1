/** The face-down supply of cards: built from all 52 cards, shuffled, drawn from the top (the end). */
module Decks {
  import opened Wrappers
  import opened Sequences
  import opened Cards

  /** The deck's cards in list order; the last element is the top card. */
  datatype Deck = Deck(cards: seq<Card>)

  /** Number of cards left in the deck. */
  function Size(d: Deck): nat {
    |d.cards|
  }

  /** The deck invariant: no card occurs twice. */
  predicate Valid(d: Deck) {
    Distinct(d.cards)
  }

  /**
   * The deck constructor. The random shuffle is not modelled as a process:
   * `shuffled` is the order it produced, any permutation of the constructor's list.
   */
  function NewDeck(shuffled: seq<Card>): (d: Deck)
    requires IsShuffle(shuffled)
    ensures Size(d) == DeckSize
    ensures forall c: Card :: multiset(d.cards)[c] == 1
    ensures Valid(d)
  {
    forall c: Card ensures multiset(shuffled)[c] == 1 {
      OrderedCardsOnce(c);
    }
    MultiplicityDistinct(shuffled);
    Deck(shuffled)
  }

  /** Removes and returns the top card; an empty deck yields no card and stays as it is. */
  function Draw(d: Deck): (r: (Option<Card>, Deck))
    ensures r.0.Some? <==> Size(d) > 0
    ensures Size(d) == 0 ==> r.1 == d
    ensures Size(d) > 0 ==> r.0.value == d.cards[Size(d) - 1]
    ensures Size(d) > 0 ==> Size(r.1) == Size(d) - 1
  {
    if |d.cards| == 0 then (None, d)
    else
      var top := d.cards[|d.cards| - 1];
      var rest := d.cards[..|d.cards| - 1];
      assert rest + [top] == d.cards;
      (Some(top), Deck(rest))
  }

  /** Putting the drawn card back on top restores the deck: the rest keeps its order. */
  lemma DrawThenPutBack(d: Deck)
    requires Size(d) > 0
    ensures Draw(d).1.cards + [Draw(d).0.value] == d.cards
  {
  }

  /** Drawing only moves a card out of the deck: the deck left plus the card drawn is the deck before. */
  lemma DrawConserves(d: Deck)
    ensures multiset(Draw(d).1.cards) + Present([Draw(d).0]) == multiset(d.cards)
  {
    var (c, d') := Draw(d);
    if c.Some? {
      DrawThenPutBack(d);
      assert Present([c]) == Present([]) + multiset{c.value};
      assert multiset(d'.cards + [c.value]) == multiset(d.cards);
    }
  }

  /** Drawing keeps the deck valid, and the drawn card has left it: no card is in two places. */
  lemma DrawKeepsValid(d: Deck)
    requires Valid(d)
    ensures Valid(Draw(d).1)
    ensures Draw(d).0.Some? ==> Draw(d).0.value !in Draw(d).1.cards
  {
    var (c, d') := Draw(d);
    if c.Some? {
      DrawThenPutBack(d);
      forall i | 0 <= i < Size(d')
        ensures d'.cards[i] != c.value
      {
        assert d.cards[i] == d'.cards[i];
      }
    }
  }
}
