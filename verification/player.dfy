/** A named player holding an ordered hand of cards. */
module Players {
  import opened Wrappers
  import opened Sequences
  import opened Cards

  /**
   * `hand` is in draw order. Its entries are slots because the Java list accepts `null`,
   * which is what a player receives when dealt from an empty deck.
   */
  datatype Player = Player(name: string, hand: seq<Slot>)

  /** Number of entries in the hand. */
  function HandSize(p: Player): nat {
    |p.hand|
  }

  /** The player constructor: the given name and an empty hand. */
  function NewPlayer(name: string): (p: Player)
    ensures p.name == name
    ensures HandSize(p) == 0 && Present(p.hand) == multiset{}
  {
    Player(name, [])
  }

  /** Appends `c` to the hand, without any check on it; earlier entries keep their places. */
  function DrawCard(p: Player, c: Slot): (q: Player)
    ensures q.name == p.name
    ensures HandSize(q) == HandSize(p) + 1
    ensures q.hand[..HandSize(p)] == p.hand && q.hand[HandSize(p)] == c
  {
    Player(p.name, p.hand + [c])
  }

  /** Drawing adds exactly the drawn card, if any, to the cards the hand holds. */
  lemma DrawCardHolds(p: Player, c: Slot)
    ensures Present(DrawCard(p, c).hand) == Present(p.hand) + Present([c])
  {
    assert DrawCard(p, c).hand == p.hand + [c];
    PresentAppend(p.hand, [c]);
  }

  /**
   * Removes the entry at `index` and returns it, shifting later entries down.
   * An index outside the hand yields no card and leaves the hand as it is.
   */
  function PlayCard(p: Player, index: int): (r: (Slot, Player))
    ensures index < 0 || index >= HandSize(p) ==> r.0 == None && r.1 == p
    ensures 0 <= index < HandSize(p) ==> r.0 == p.hand[index]
    ensures 0 <= index < HandSize(p) ==> r.1.name == p.name && HandSize(r.1) == HandSize(p) - 1
    ensures 0 <= index < HandSize(p) ==> r.1.hand[..index] == p.hand[..index] && r.1.hand[index..] == p.hand[index + 1..]
    ensures 0 <= index < HandSize(p) ==> InsertAt(r.1.hand, index, r.0) == p.hand
  {
    if index < 0 || index >= |p.hand| then (None, p)
    else
      var rest := p.hand[..index] + p.hand[index + 1..];
      assert InsertAt(rest, index, p.hand[index]) == p.hand;
      (p.hand[index], Player(p.name, rest))
  }

  /** Playing only moves a card out of the hand: the hand left plus the card played is the hand before. */
  lemma PlayCardConserves(p: Player, index: int)
    ensures Present(PlayCard(p, index).1.hand) + Present([PlayCard(p, index).0]) == Present(p.hand)
  {
    if 0 <= index < HandSize(p) {
      var before := p.hand[..index];
      var after := p.hand[index + 1..];
      var x := [p.hand[index]];
      assert p.hand == before + x + after;
      assert PlayCard(p, index).1.hand == before + after;
      PresentAppend(before, x);
      PresentAppend(before + x, after);
      PresentAppend(before, after);
    } else {
      var none: seq<Slot> := [None];
      assert none[..0] == [];
    }
  }

  /** The player after drawing each of `cs` in turn. */
  function DrawEach(p: Player, cs: seq<Slot>): Player
    decreases |cs|
  {
    if cs == [] then p else DrawEach(DrawCard(p, cs[0]), cs[1..])
  }

  /** Drawing a list of cards appends exactly that list to the hand, in order. */
  lemma {:induction false} DrawEachAppends(p: Player, cs: seq<Slot>)
    ensures DrawEach(p, cs).name == p.name
    ensures DrawEach(p, cs).hand == p.hand + cs
    decreases |cs|
  {
    if cs != [] {
      var q := DrawCard(p, cs[0]);
      assert q.hand == p.hand + [cs[0]];
      DrawEachAppends(q, cs[1..]);
      assert q.hand + cs[1..] == p.hand + cs;
    }
  }

  /** After `k` draws a new player's hand holds `k` entries. */
  lemma HandSizeCountsDraws(name: string, cs: seq<Slot>)
    ensures HandSize(DrawEach(NewPlayer(name), cs)) == |cs|
  {
    DrawEachAppends(NewPlayer(name), cs);
  }
}
