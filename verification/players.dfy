/** A seat at the table and its hand (model/Player.kt). */
module Players {
  import opened Wrappers
  import opened Cards

  /** Seats are identified by `id` (0..3, anticlockwise); the hand keeps
      the order the cards were received in. */
  datatype Player = Player(id: int, name: string, position: int, hand: seq<Card>, teamId: int)

  /** `hasSuit`: some card of the hand has suit `suit`. */
  function HasSuit(hand: seq<Card>, suit: Suit): (b: bool)
    ensures b <==> exists i :: 0 <= i < |hand| && hand[i].suit == suit
  {
    if hand == [] then false
    else if hand[0].suit == suit then true
    else
      assert forall i :: 0 < i < |hand| ==> hand[i] == hand[1..][i - 1];
      HasSuit(hand[1..], suit)
  }

  /** `hand.filter { it.suit == suit }`. */
  function OfSuit(hand: seq<Card>, suit: Suit): seq<Card>
  {
    if hand == [] then []
    else (if hand[0].suit == suit then [hand[0]] else []) + OfSuit(hand[1..], suit)
  }

  /** The filter keeps every card of the suit, as often as the hand holds
      it, and nothing else. */
  lemma {:induction false} OfSuitCounts(hand: seq<Card>, suit: Suit)
    ensures forall c :: multiset(OfSuit(hand, suit))[c] == if c.suit == suit then multiset(hand)[c] else 0
    ensures forall i :: 0 <= i < |OfSuit(hand, suit)| ==> OfSuit(hand, suit)[i].suit == suit
    decreases |hand|
  {
    if hand != [] {
      OfSuitCounts(hand[1..], suit);
      assert hand == [hand[0]] + hand[1..];
    }
  }

  /** The filter keeps the hand's order: it distributes over concatenation. */
  lemma {:induction false} OfSuitAppend(a: seq<Card>, b: seq<Card>, suit: Suit)
    ensures OfSuit(a + b, suit) == OfSuit(a, suit) + OfSuit(b, suit)
    decreases |a|
  {
    if a == [] {
      assert a + b == b;
    } else {
      var head := if a[0].suit == suit then [a[0]] else [];
      assert (a + b)[0] == a[0] && (a + b)[1..] == a[1..] + b;
      assert OfSuit(a + b, suit) == head + OfSuit(a[1..] + b, suit);
      OfSuitAppend(a[1..], b, suit);
      assert OfSuit(a, suit) == head + OfSuit(a[1..], suit);
    }
  }

  /** `getPlayableCards(leadSuit, trumpSuit)`: the cards the player may
      legally play. With no lead suit, or when void in it, the whole hand;
      otherwise exactly the hand's cards of the lead suit, in hand order.
      The trump suit is accepted and ignored. */
  function PlayableCards(p: Player, leadSuit: Option<Suit>, trumpSuit: Option<Suit>): (r: seq<Card>)
    ensures leadSuit.None? ==> r == p.hand
    ensures leadSuit.Some? && !HasSuit(p.hand, leadSuit.value) ==> r == p.hand
    ensures leadSuit.Some? && HasSuit(p.hand, leadSuit.value) ==>
      && r == OfSuit(p.hand, leadSuit.value)
      && (forall c :: c in r <==> c in p.hand && c.suit == leadSuit.value)
    ensures multiset(r) <= multiset(p.hand)
    ensures |p.hand| > 0 ==> |r| > 0
  {
    match leadSuit
    case None => p.hand
    case Some(lead) =>
      var following := OfSuit(p.hand, lead);
      OfSuitCounts(p.hand, lead);
      if |following| > 0 then following
      else
        assert !HasSuit(p.hand, lead) by {
          forall i | 0 <= i < |p.hand|
            ensures p.hand[i].suit != lead
          {
            assert multiset(p.hand)[p.hand[i]] > 0;
          }
        }
        p.hand
  }

  /** The trump suit never influences which cards are playable. */
  lemma PlayableIgnoresTrump(p: Player, leadSuit: Option<Suit>, t1: Option<Suit>, t2: Option<Suit>)
    ensures PlayableCards(p, leadSuit, t1) == PlayableCards(p, leadSuit, t2)
  {
  }

  /** The index of the first copy of `c` in the hand. */
  function FirstIndex(hand: seq<Card>, c: Card): (i: nat)
    requires c in hand
    ensures i < |hand| && hand[i] == c && c !in hand[..i]
  {
    if hand[0] == c then 0
    else
      var j := FirstIndex(hand[1..], c);
      assert hand[..j + 1] == [hand[0]] + hand[1..][..j];
      j + 1
  }

  /** `MutableList.remove(card)`: drops the first occurrence, if any. */
  function RemoveFirst(hand: seq<Card>, c: Card): seq<Card>
  {
    if hand == [] then []
    else if hand[0] == c then hand[1..]
    else [hand[0]] + RemoveFirst(hand[1..], c)
  }

  /** Removing a held card cuts the hand at its first copy; removing any
      other card changes nothing. */
  lemma {:induction false} RemoveFirstCut(hand: seq<Card>, c: Card)
    ensures c !in hand ==> RemoveFirst(hand, c) == hand
    ensures c in hand ==> RemoveFirst(hand, c) == hand[..FirstIndex(hand, c)] + hand[FirstIndex(hand, c) + 1..]
    decreases |hand|
  {
    if hand != [] && hand[0] != c {
      RemoveFirstCut(hand[1..], c);
      assert hand == [hand[0]] + hand[1..];
      if c in hand {
        var j := FirstIndex(hand[1..], c);
        assert hand[..j + 1] == [hand[0]] + hand[1..][..j];
        assert hand[j + 2..] == hand[1..][j + 1..];
      }
    }
  }

  /** Removing a held card takes exactly one copy of it out of the hand. */
  lemma RemoveFirstCounts(hand: seq<Card>, c: Card)
    requires c in hand
    ensures multiset(RemoveFirst(hand, c)) == multiset(hand) - multiset{c}
    ensures |RemoveFirst(hand, c)| == |hand| - 1
  {
    RemoveFirstCut(hand, c);
    var i := FirstIndex(hand, c);
    var pre, post := hand[..i], hand[i + 1..];
    assert hand == pre + [c] + post;
    assert multiset(hand) == multiset(pre) + multiset{c} + multiset(post);
    assert RemoveFirst(hand, c) == pre + post;
    assert multiset(RemoveFirst(hand, c)) == multiset(pre) + multiset(post);
  }

  /** `Player.playCard(card)`: a held card leaves the hand (one copy) and
      is returned; any other card gives `None` and leaves the player as is. */
  function PlayCard(p: Player, c: Card): (r: (Option<Card>, Player))
    ensures c in p.hand ==> r.0 == Some(c) && r.1 == p.(hand := r.1.hand)
    ensures c in p.hand ==> r.1.hand == p.hand[..FirstIndex(p.hand, c)] + p.hand[FirstIndex(p.hand, c) + 1..]
    ensures c in p.hand ==> multiset(r.1.hand) == multiset(p.hand) - multiset{c} && |r.1.hand| == |p.hand| - 1
    ensures c !in p.hand ==> r == (None, p)
  {
    if c in p.hand then
      RemoveFirstCut(p.hand, c);
      RemoveFirstCounts(p.hand, c);
      (Some(c), p.(hand := RemoveFirst(p.hand, c)))
    else (None, p)
  }

  /** `receiveCards`: the cards are appended, in order, after the hand. */
  function ReceiveCards(p: Player, cards: seq<Card>): (r: Player)
    ensures |r.hand| == |p.hand| + |cards|
    ensures r.hand[..|p.hand|] == p.hand && r.hand[|p.hand|..] == cards
    ensures multiset(r.hand) == multiset(p.hand) + multiset(cards)
    ensures r == p.(hand := r.hand)
  {
    p.(hand := p.hand + cards)
  }

  /** `clearHand`: the hand becomes empty; nothing else changes. */
  function ClearHand(p: Player): (r: Player)
    ensures |r.hand| == 0 && r == p.(hand := [])
  {
    p.(hand := [])
  }
}
