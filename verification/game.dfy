/**
 * The game: players sharing one deck and one discard pile, with the turn state.
 * Only construction (dealing) and the turn-ownership guard of `playCard` are modelled.
 */
module Games {
  import opened Wrappers
  import opened Sequences
  import opened Cards
  import opened Decks
  import opened Players

  /** Cards dealt to each player at the start of the game. */
  const DealSize: nat := 5

  /** The most players a full deck serves with complete hands and a discard seed: 5 * 10 + 1 <= 52. */
  const MaxPlayers: nat := 10

  datatype Game = Game(
    players: seq<Player>,
    deck: Deck,
    discardPile: seq<Slot>,
    currentPlayerIndex: int,
    direction: int,
    reversed: bool,
    drawCount: int)

  /** The cards held in all the hands of `ps`. */
  function HandsCards(ps: seq<Player>): multiset<Card>
    decreases |ps|
  {
    if ps == [] then multiset{} else Present(ps[0].hand) + HandsCards(ps[1..])
  }

  /** Every card of the game: in the deck, in a hand, or on the discard pile. */
  function CardsInPlay(g: Game): multiset<Card> {
    multiset(g.deck.cards) + HandsCards(g.players) + Present(g.discardPile)
  }

  /** Card conservation: deck, hands and discard pile together hold the 52 cards, each once. */
  ghost predicate Conserved(g: Game) {
    CardsInPlay(g) == multiset(OrderedCards())
  }

  /** The entry the `j`-th draw from `d` (counting from 0) yields: the `j`-th card from the top, or `null`. */
  function DrawnAt(d: Deck, j: nat): Slot {
    if j < Size(d) then Some(d.cards[Size(d) - 1 - j]) else None
  }

  /** The entries `n` successive draws give once `from` cards have already been drawn from `d`. */
  function TopSlots(d: Deck, from: nat, n: nat): (s: seq<Slot>)
    decreases n
    ensures |s| == n
  {
    if n == 0 then [] else [DrawnAt(d, from)] + TopSlots(d, from + 1, n - 1)
  }

  /** Entry `k` of the slots is the `(from + k)`-th draw. */
  lemma {:induction false} TopSlotsAt(d: Deck, from: nat, n: nat, k: nat)
    requires k < n
    ensures TopSlots(d, from, n)[k] == DrawnAt(d, from + k)
    decreases n
  {
    if k > 0 {
      TopSlotsAt(d, from + 1, n - 1, k - 1);
    }
  }

  /** The deck left after `n` draws from `d`: its bottom `Size(d) - n` cards, or nothing. */
  function AfterDraws(d: Deck, n: nat): (d': Deck)
    ensures Size(d') == if Size(d) >= n then Size(d) - n else 0
  {
    if Size(d) >= n then Deck(d.cards[..Size(d) - n]) else Deck([])
  }

  /** `a` draws followed by `b` more leave what `a + b` draws leave. */
  lemma AfterDrawsCompose(d: Deck, a: nat, b: nat)
    ensures AfterDraws(AfterDraws(d, a), b) == AfterDraws(d, a + b)
  {
    if Size(d) >= a + b {
      assert d.cards[..Size(d) - a][..Size(d) - a - b] == d.cards[..Size(d) - (a + b)];
    }
  }

  /** Drawing from what is left after `m` draws is drawing further down the original deck. */
  lemma TopSlotsShift(d: Deck, m: nat, from: nat, n: nat)
    ensures TopSlots(AfterDraws(d, m), from, n) == TopSlots(d, m + from, n)
  {
    var d' := AfterDraws(d, m);
    forall k | 0 <= k < n
      ensures TopSlots(d', from, n)[k] == TopSlots(d, m + from, n)[k]
    {
      TopSlotsAt(d', from, n, k);
      TopSlotsAt(d, m + from, n, k);
      if from + k < Size(d') {
        assert d'.cards[Size(d') - 1 - (from + k)] == d.cards[Size(d) - 1 - (m + from + k)];
      }
    }
  }

  /**
   * The inner dealing loop: `p` draws `n` times from `d`, each draw taking the top card.
   * Once the deck is empty the draws yield `null`, which Java appends to the hand all the same.
   */
  function DealOne(p: Player, d: Deck, n: nat): (r: (Player, Deck))
    decreases n
    ensures r.0.name == p.name && HandSize(r.0) == HandSize(p) + n
  {
    if n == 0 then (p, d)
    else
      var drawn := Draw(d);
      DealOne(DrawCard(p, drawn.0), drawn.1, n - 1)
  }

  /** A single draw yields the first slot and leaves what one draw leaves. */
  lemma DrawTakesFirstSlot(d: Deck)
    ensures Draw(d).0 == DrawnAt(d, 0)
    ensures Draw(d).1 == AfterDraws(d, 1)
  {
  }

  /** Drawing one card into the hand, then `n - 1` more, is drawing `n` into it. */
  lemma DrawThenRest(p: Player, d: Deck, n: nat)
    requires n > 0
    ensures DrawCard(p, Draw(d).0).hand + TopSlots(Draw(d).1, 0, n - 1) == p.hand + TopSlots(d, 0, n)
  {
    var c := Draw(d).0;
    DrawTakesFirstSlot(d);
    TopSlotsShift(d, 1, 0, n - 1);
    calc {
      DrawCard(p, c).hand + TopSlots(Draw(d).1, 0, n - 1);
      (p.hand + [c]) + TopSlots(d, 1, n - 1);
      p.hand + ([c] + TopSlots(d, 1, n - 1));
      p.hand + TopSlots(d, 0, n);
    }
  }

  /** The inner loop appends the next `n` draws to the hand, top card first, and keeps the name. */
  lemma {:induction false} DealOneHand(p: Player, d: Deck, n: nat)
    ensures DealOne(p, d, n).0.name == p.name
    ensures DealOne(p, d, n).0.hand == p.hand + TopSlots(d, 0, n)
    decreases n
  {
    if n == 0 {
      assert p.hand + TopSlots(d, 0, n) == p.hand;
    } else {
      DealOneHand(DrawCard(p, Draw(d).0), Draw(d).1, n - 1);
      DrawThenRest(p, d, n);
    }
  }

  /** The inner loop leaves the deck as `n` draws leave it. */
  lemma {:induction false} DealOneDeck(p: Player, d: Deck, n: nat)
    ensures DealOne(p, d, n).1 == AfterDraws(d, n)
    decreases n
  {
    if n == 0 {
      assert AfterDraws(d, 0) == d;
    } else {
      DealOneDeck(DrawCard(p, Draw(d).0), Draw(d).1, n - 1);
      DrawTakesFirstSlot(d);
      AfterDrawsCompose(d, 1, n - 1);
    }
  }

  /** A single draw into a hand moves one card from the deck to the hand, or nothing at all. */
  lemma DrawIntoHandConserves(p: Player, d: Deck)
    ensures Present(DrawCard(p, Draw(d).0).hand) + multiset(Draw(d).1.cards) == Present(p.hand) + multiset(d.cards)
  {
    var drawn := Draw(d);
    var x := Present([drawn.0]);
    DrawConserves(d);
    DrawCardHolds(p, drawn.0);
    calc {
      Present(DrawCard(p, drawn.0).hand) + multiset(drawn.1.cards);
      (Present(p.hand) + x) + multiset(drawn.1.cards);
      Present(p.hand) + (multiset(drawn.1.cards) + x);
      Present(p.hand) + multiset(d.cards);
    }
  }

  /** The inner loop only moves cards from the deck into the hand. */
  lemma {:induction false} DealOneConserves(p: Player, d: Deck, n: nat)
    ensures Present(DealOne(p, d, n).0.hand) + multiset(DealOne(p, d, n).1.cards) == Present(p.hand) + multiset(d.cards)
    decreases n
  {
    if n > 0 {
      DealOneConserves(DrawCard(p, Draw(d).0), Draw(d).1, n - 1);
      DrawIntoHandConserves(p, d);
    }
  }

  /**
   * The outer dealing loop: each player in order receives `DealSize` draws,
   * all of one player's draws coming before the next player's.
   */
  function DealCards(ps: seq<Player>, d: Deck): (r: (seq<Player>, Deck))
    decreases |ps|
    ensures |r.0| == |ps|
    ensures forall i :: 0 <= i < |ps| ==> r.0[i].name == ps[i].name && HandSize(r.0[i]) == HandSize(ps[i]) + DealSize
  {
    if ps == [] then ([], d)
    else
      var first := DealOne(ps[0], d, DealSize);
      var rest := DealCards(ps[1..], first.1);
      ([first.0] + rest.0, rest.1)
  }

  /**
   * The invariant of the outer loop, for one hand: player `i` keeps its name and has received
   * the draws numbered `5 * i` to `5 * i + 4` after its earlier cards.
   */
  lemma {:induction false} DealCardsHand(ps: seq<Player>, d: Deck, i: nat)
    requires i < |ps|
    ensures DealCards(ps, d).0[i].hand == ps[i].hand + TopSlots(d, DealSize * i, DealSize)
    decreases i
  {
    var first := DealOne(ps[0], d, DealSize);
    DealCardsStep(ps, d, i);
    if i == 0 {
      DealOneHand(ps[0], d, DealSize);
    } else {
      var rest := DealCards(ps[1..], first.1).0;
      var slots := TopSlots(d, DealSize * i, DealSize);
      DealCardsHand(ps[1..], first.1, i - 1);
      DealOneDeck(ps[0], d, DealSize);
      NextHandSlots(d, i);
      assert TopSlots(first.1, DealSize * (i - 1), DealSize) == slots;
      assert rest[i - 1].hand == ps[i].hand + slots;
    }
  }

  /** One turn of the outer loop: player 0 is dealt from `d`, the others from what is left. */
  lemma DealCardsStep(ps: seq<Player>, d: Deck, i: nat)
    requires i < |ps|
    ensures i == 0 ==> DealCards(ps, d).0[i] == DealOne(ps[0], d, DealSize).0
    ensures i > 0 ==> DealCards(ps, d).0[i] == DealCards(ps[1..], DealOne(ps[0], d, DealSize).1).0[i - 1]
  {
  }

  /** Hand `i - 1` dealt from what is left after one hand is hand `i` dealt from the whole deck. */
  lemma NextHandSlots(d: Deck, i: nat)
    requires i > 0
    ensures TopSlots(AfterDraws(d, DealSize), DealSize * (i - 1), DealSize) == TopSlots(d, DealSize * i, DealSize)
  {
    ShiftedSlots(d, DealSize, DealSize * (i - 1), DealSize * i, DealSize);
  }

  /** `TopSlotsShift` with the sum of the two offsets given as `k`. */
  lemma ShiftedSlots(d: Deck, m: nat, j: nat, k: nat, n: nat)
    requires k == m + j
    ensures TopSlots(AfterDraws(d, m), j, n) == TopSlots(d, k, n)
  {
    TopSlotsShift(d, m, j, n);
  }

  /** The invariant of the outer loop, for the deck: it has lost `5 * |ps|` draws. */
  lemma {:induction false} DealCardsDeck(ps: seq<Player>, d: Deck)
    ensures DealCards(ps, d).1 == AfterDraws(d, DealSize * |ps|)
    decreases |ps|
  {
    if ps == [] {
      assert AfterDraws(d, 0) == d;
    } else {
      var first := DealOne(ps[0], d, DealSize);
      DealOneDeck(ps[0], d, DealSize);
      DealCardsDeck(ps[1..], first.1);
      NextHandsDeck(d, |ps|);
    }
  }

  /** `n - 1` hands dealt after one hand leave what `n` hands leave. */
  lemma NextHandsDeck(d: Deck, n: nat)
    requires n > 0
    ensures AfterDraws(AfterDraws(d, DealSize), DealSize * (n - 1)) == AfterDraws(d, DealSize * n)
  {
    ComposedDraws(d, DealSize, DealSize * (n - 1), DealSize * n);
  }

  /** `AfterDrawsCompose` with the total number of draws given as `k`. */
  lemma ComposedDraws(d: Deck, a: nat, b: nat, k: nat)
    requires k == a + b
    ensures AfterDraws(AfterDraws(d, a), b) == AfterDraws(d, k)
  {
    AfterDrawsCompose(d, a, b);
  }

  /** Adding the same cards to both sides of an equation between two holdings keeps it. */
  lemma ShiftHoldings(a1: multiset<Card>, b1: multiset<Card>, a2: multiset<Card>, b2: multiset<Card>, x: multiset<Card>)
    requires a1 + b1 == a2 + b2
    ensures x + a1 + b1 == x + a2 + b2
  {
    assert x + a1 + b1 == x + (a1 + b1);
    assert x + a2 + b2 == x + (a2 + b2);
  }

  /** The outer loop only moves cards from the deck into the hands. */
  lemma {:induction false} DealCardsConserves(ps: seq<Player>, d: Deck)
    ensures HandsCards(DealCards(ps, d).0) + multiset(DealCards(ps, d).1.cards) == HandsCards(ps) + multiset(d.cards)
    decreases |ps|
  {
    if ps != [] {
      var first := DealOne(ps[0], d, DealSize);
      var rest := DealCards(ps[1..], first.1);
      DealOneConserves(ps[0], d, DealSize);
      DealCardsConserves(ps[1..], first.1);
      var dealt := DealCards(ps, d).0;
      assert dealt[0] == first.0 && dealt[1..] == rest.0;
      assert HandsCards(dealt) == Present(first.0.hand) + HandsCards(rest.0);
      ShiftHoldings(HandsCards(rest.0), multiset(rest.1.cards), HandsCards(ps[1..]), multiset(first.1.cards), Present(first.0.hand));
      calc {
        HandsCards(dealt) + multiset(rest.1.cards);
        Present(first.0.hand) + HandsCards(rest.0) + multiset(rest.1.cards);
        Present(first.0.hand) + HandsCards(ps[1..]) + multiset(first.1.cards);
        HandsCards(ps[1..]) + (Present(first.0.hand) + multiset(first.1.cards));
        HandsCards(ps[1..]) + (Present(ps[0].hand) + multiset(d.cards));
        HandsCards(ps) + multiset(d.cards);
      }
    }
  }

  /** Hands that are all empty hold no cards. */
  lemma {:induction false} EmptyHandsHoldNothing(ps: seq<Player>)
    requires forall i :: 0 <= i < |ps| ==> ps[i].hand == []
    ensures HandsCards(ps) == multiset{}
    decreases |ps|
  {
    if ps != [] {
      EmptyHandsHoldNothing(ps[1..]);
    }
  }

  /** The constructor's first loop: one fresh player per name, in the order given. */
  function Seat(names: seq<string>): (ps: seq<Player>)
    ensures |ps| == |names|
    ensures forall i :: 0 <= i < |ps| ==> ps[i].name == names[i] && ps[i].hand == []
  {
    seq(|names|, i requires 0 <= i < |names| => NewPlayer(names[i]))
  }

  /**
   * The game constructor: the players, a shuffled deck, the deal, and one more draw to seed
   * the discard pile. `shuffled` is the order the deck's shuffle produced.
   */
  function NewGame(names: seq<string>, shuffled: seq<Card>): (g: Game)
    requires IsShuffle(shuffled)
    ensures |g.players| == |names|
    ensures forall i :: 0 <= i < |names| ==> g.players[i].name == names[i] && HandSize(g.players[i]) == DealSize
    ensures |g.discardPile| == 1
    ensures g.currentPlayerIndex == 0 && g.direction == 1 && !g.reversed && g.drawCount == 0
  {
    var dealt := DealCards(Seat(names), NewDeck(shuffled));
    var seed := Draw(dealt.1);
    Game(dealt.0, seed.1, [seed.0], 0, 1, false, 0)
  }

  /**
   * Entry `k` of player `i`'s hand is the `(5 * i + k)`-th card from the top of the shuffled
   * deck; with more than ten players the deck runs dry and the later entries are `null`.
   */
  lemma NewGameHand(names: seq<string>, shuffled: seq<Card>, i: nat, k: nat)
    requires IsShuffle(shuffled)
    requires i < |names| && k < DealSize
    ensures NewGame(names, shuffled).players[i].hand[k] ==
      if DealSize * i + k < DeckSize then Some(shuffled[DeckSize - 1 - DealSize * i - k]) else None
  {
    var hand := NewGame(names, shuffled).players[i].hand;
    var slots := TopSlots(NewDeck(shuffled), DealSize * i, DealSize);
    NewGameHandSlots(names, shuffled, i);
    TopSlotsAt(NewDeck(shuffled), DealSize * i, DealSize, k);
    ShuffledDraw(shuffled, DealSize * i + k);
    assert hand[k] == slots[k];
  }

  /** The `j`-th draw from a new deck is the `j`-th card from the end of the shuffled order. */
  lemma ShuffledDraw(shuffled: seq<Card>, j: nat)
    requires IsShuffle(shuffled)
    ensures DrawnAt(NewDeck(shuffled), j) == if j < DeckSize then Some(shuffled[DeckSize - 1 - j]) else None
  {
    assert NewDeck(shuffled).cards == shuffled;
  }

  /** Player `i` of a new game holds draws `5 * i` to `5 * i + 4` of the shuffled deck. */
  lemma NewGameHandSlots(names: seq<string>, shuffled: seq<Card>, i: nat)
    requires IsShuffle(shuffled)
    requires i < |names|
    ensures NewGame(names, shuffled).players[i].hand == TopSlots(NewDeck(shuffled), DealSize * i, DealSize)
  {
    DealCardsHand(Seat(names), NewDeck(shuffled), i);
  }

  /**
   * The discard pile is seeded with the card below the dealt ones and the deck keeps the rest;
   * once more than ten players have emptied the deck, the seed is `null` and the deck is empty.
   */
  lemma NewGameSeedsDiscard(names: seq<string>, shuffled: seq<Card>)
    requires IsShuffle(shuffled)
    ensures DealSize * |names| < DeckSize ==>
      NewGame(names, shuffled).discardPile == [Some(shuffled[DeckSize - 1 - DealSize * |names|])] &&
      NewGame(names, shuffled).deck.cards == shuffled[..DeckSize - 1 - DealSize * |names|]
    ensures DealSize * |names| >= DeckSize ==>
      NewGame(names, shuffled).discardPile == [None] && NewGame(names, shuffled).deck.cards == []
  {
    var deck := NewDeck(shuffled);
    var rest := DealCards(Seat(names), deck).1;
    DealCardsDeck(Seat(names), deck);
    DrawTakesFirstSlot(rest);
    AfterDrawsCompose(deck, DealSize * |names|, 1);
  }

  /** Three holdings that add up, rearranged. */
  lemma Regroup(deck: multiset<Card>, hands: multiset<Card>, top: multiset<Card>, mid: multiset<Card>, all: multiset<Card>)
    requires hands + mid == all
    requires deck + top == mid
    ensures deck + hands + top == all
  {
  }

  /** Construction conserves the cards: deck, hands and discard pile hold the 52 cards, each once. */
  lemma NewGameConserves(names: seq<string>, shuffled: seq<Card>)
    requires IsShuffle(shuffled)
    ensures Conserved(NewGame(names, shuffled))
  {
    var deck := NewDeck(shuffled);
    var seated := Seat(names);
    var dealt := DealCards(seated, deck);
    var seed := Draw(dealt.1);
    DealCardsConserves(seated, deck);
    EmptyHandsHoldNothing(seated);
    DrawConserves(dealt.1);
    Regroup(multiset(seed.1.cards), HandsCards(dealt.0), Present([seed.0]), multiset(dealt.1.cards), multiset(shuffled));
  }

  /** Conservation means each card is in exactly one place: no two containers share a card. */
  lemma ConservedCardsAreUnique(g: Game, c: Card)
    requires Conserved(g)
    ensures CardsInPlay(g)[c] == 1
    ensures c in g.deck.cards ==> c !in HandsCards(g.players) && c !in Present(g.discardPile)
    ensures c in HandsCards(g.players) ==> c !in g.deck.cards && c !in Present(g.discardPile)
    ensures Valid(g.deck)
  {
    OrderedCardsOnce(c);
    forall x: Card ensures multiset(g.deck.cards)[x] <= 1 {
      OrderedCardsOnce(x);
    }
    MultiplicityDistinct(g.deck.cards);
  }

  /** With at most ten players every dealt entry and the discard seed are real cards. */
  lemma AtMostTenPlayersGetRealCards(names: seq<string>, shuffled: seq<Card>, i: nat, k: nat)
    requires IsShuffle(shuffled)
    requires |names| <= MaxPlayers && i < |names| && k < DealSize
    ensures NewGame(names, shuffled).players[i].hand[k].Some?
    ensures NewGame(names, shuffled).discardPile[0].Some?
    ensures Size(NewGame(names, shuffled).deck) == DeckSize - DealSize * |names| - 1
  {
    NewGameHand(names, shuffled, i, k);
    NewGameSeedsDiscard(names, shuffled);
  }

  /** What `playCard` did: refused because it is not the caller's turn, or got past that guard. */
  datatype PlayOutcome =
    | Refused(game: Game)   // returned false; `game` is the state after the call
    | Admitted              // the rest of the turn is not part of this model

  /** The turn-ownership guard of `playCard`: only the current player may act. */
  function PlayCard(g: Game, playerIndex: int, cardIndex: int): (r: PlayOutcome)
    ensures r.Refused? <==> playerIndex != g.currentPlayerIndex
    ensures r.Refused? ==>
      r.game.players == g.players && r.game.deck == g.deck && r.game.discardPile == g.discardPile &&
      r.game.currentPlayerIndex == g.currentPlayerIndex && r.game.direction == g.direction &&
      r.game.reversed == g.reversed && r.game.drawCount == g.drawCount
  {
    if playerIndex != g.currentPlayerIndex then Refused(g) else Admitted
  }

  /** A refused play keeps card conservation, since it changes nothing. */
  lemma RefusedPlayConserves(g: Game, playerIndex: int, cardIndex: int)
    requires Conserved(g)
    requires PlayCard(g, playerIndex, cardIndex).Refused?
    ensures Conserved(PlayCard(g, playerIndex, cardIndex).game)
  {
  }

  /** Two players: five cards each, 41 left in the deck, one discard, and Bob cannot play first. */
  lemma TwoPlayerScenario(shuffled: seq<Card>)
    requires IsShuffle(shuffled)
    ensures var g := NewGame(["Alice", "Bob"], shuffled);
      HandSize(g.players[0]) == 5 && HandSize(g.players[1]) == 5 &&
      Size(g.deck) == 41 && |g.discardPile| == 1 && g.currentPlayerIndex == 0 &&
      PlayCard(g, 1, 0) == Refused(g)
  {
    var names := ["Alice", "Bob"];
    NewGameSeedsDiscard(names, shuffled);
  }
}
