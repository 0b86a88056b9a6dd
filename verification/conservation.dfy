/** Card conservation over a deal: from the deal onwards every card of the
    deck is in a hand, in the current trick, in a trick already won, or
    face down as the hidden trump. */
module Conservation {
  import opened Wrappers
  import opened KotlinInt
  import opened Cards
  import opened Players
  import opened Teams
  import opened GameStates
  import opened Engine

  /** The cards of the four hands together. */
  function HandCards(ps: seq<Player>): multiset<Card>
    requires |ps| == 4
  {
    multiset(ps[0].hand) + multiset(ps[1].hand) + multiset(ps[2].hand) + multiset(ps[3].hand)
  }

  /** The number of cards in the four hands. */
  function HandCount(ps: seq<Player>): int
    requires |ps| == 4
  {
    |ps[0].hand| + |ps[1].hand| + |ps[2].hand| + |ps[3].hand|
  }

  /** Replacing one seat's player changes the number of cards in hands by
      the difference between the two hands. */
  lemma HandCountUpdate(ps: seq<Player>, i: nat, p: Player)
    requires |ps| == 4 && i < 4
    ensures HandCount(ps[i := p]) == HandCount(ps) - |ps[i].hand| + |p.hand|
  {
    if i == 0 {
    } else if i == 1 {
    } else if i == 2 {
    } else {
    }
  }

  /** The trump card while it lies face down. */
  function Hidden(s: State): nat
  {
    if s.trumpCard.Some? && !s.trumpRevealed then 1 else 0
  }

  /** Cards accounted for: every hand, the current trick, four for every
      trick won, and the hidden trump. */
  function CardCount(s: State): int
    requires |s.players| == 4 && |s.teams| == 2
  {
    HandCount(s.players) + |s.currentTrick| + 4 * (s.teams[0].tricksWon + s.teams[1].tricksWon) + Hidden(s)
  }

  /** A deal in progress: seats and teams as set up, a dealer chosen, and
      fewer than four cards in the trick, each played by a seat. */
  predicate InPlay(s: State)
  {
    && WellFormed(s) && 0 <= s.currentDealer < 4
    && |s.currentTrick| < 4
    && forall j :: 0 <= j < |s.currentTrick| ==> 0 <= s.currentTrick[j].playerId < 4
  }

  // ---------------------------------------------------------------------
  // Dealing hands out the deck
  // ---------------------------------------------------------------------

  /** The four positions' shares of `m` sweeps over a stretch. */
  function Shares(cards: seq<Card>, m: nat): multiset<Card>
    requires 4 * m <= |cards|
  {
    multiset(EveryFourth(cards, 0, m)) + multiset(EveryFourth(cards, 1, m))
      + multiset(EveryFourth(cards, 2, m)) + multiset(EveryFourth(cards, 3, m))
  }

  /** The copies of `c` in position `k`'s share of `m` sweeps, counted
      sweep by sweep. */
  function Copies(cards: seq<Card>, k: nat, m: nat, c: Card): nat
    requires k < 4 && 4 * m <= |cards|
    decreases m
  {
    if m == 0 then 0
    else (if cards[k] == c then 1 else 0) + Copies(cards[4..], k, m - 1, c)
  }

  /** Counting sweep by sweep counts the share. */
  lemma {:induction false} CopiesCount(cards: seq<Card>, k: nat, m: nat, c: Card)
    requires k < 4 && 4 * m <= |cards|
    ensures Copies(cards, k, m, c) == multiset(EveryFourth(cards, k, m))[c]
    decreases m
  {
    if m > 0 {
      ShareCount(cards, k, m, c);
      CopiesCount(cards[4..], k, m - 1, c);
    }
  }

  /** Every card of a stretch of `4m` cards goes to exactly one of the four
      dealing positions, counted sweep by sweep. */
  lemma {:induction false} CopiesCover(cards: seq<Card>, m: nat, c: Card)
    requires 4 * m == |cards|
    ensures Copies(cards, 0, m, c) + Copies(cards, 1, m, c) + Copies(cards, 2, m, c) + Copies(cards, 3, m, c)
            == multiset(cards)[c]
    decreases m
  {
    if m > 0 {
      CopiesCover(cards[4..], m - 1, c);
      SweepCount(cards, c);
      FirstFour(cards, c);
    }
  }

  /** Every card of a stretch of `4m` cards goes to exactly one of the four
      dealing positions: each card has as many copies in the shares as in
      the stretch. */
  lemma SharesCover(cards: seq<Card>, m: nat, c: Card)
    requires 4 * m == |cards|
    ensures Shares(cards, m)[c] == multiset(cards)[c]
  {
    CopiesCount(cards, 0, m, c);
    CopiesCount(cards, 1, m, c);
    CopiesCount(cards, 2, m, c);
    CopiesCount(cards, 3, m, c);
    CopiesCover(cards, m, c);
  }

  /** A position's share counts its card of the first sweep and then its
      share of the rest. */
  lemma ShareCount(cards: seq<Card>, k: nat, m: nat, c: Card)
    requires k < 4 && 0 < m && 4 * m <= |cards|
    ensures multiset(EveryFourth(cards, k, m))[c]
            == (if cards[k] == c then 1 else 0) + multiset(EveryFourth(cards[4..], k, m - 1))[c]
  {
    EveryFourthCons(cards, k, m);
    var t := EveryFourth(cards[4..], k, m - 1);
    assert multiset([cards[k]] + t) == multiset{cards[k]} + multiset(t);
  }

  /** A stretch's cards are its first four and the rest. */
  lemma FirstFour(cards: seq<Card>, c: Card)
    requires |cards| >= 4
    ensures multiset(cards)[c] == multiset(cards[..4])[c] + multiset(cards[4..])[c]
  {
    assert cards == cards[..4] + cards[4..];
  }

  /** The copies of a card among a sweep's four cards. */
  lemma SweepCount(cards: seq<Card>, c: Card)
    requires |cards| >= 4
    ensures multiset(cards[..4])[c] == (if cards[0] == c then 1 else 0) + (if cards[1] == c then 1 else 0)
      + (if cards[2] == c then 1 else 0) + (if cards[3] == c then 1 else 0)
  {
    assert cards[..4] == [cards[0]] + [cards[1]] + [cards[2]] + [cards[3]];
  }

  /** The four dealt hands together hold each card as often as the deck's
      first 52 cards do. */
  lemma DealtHandsCover(deck: seq<Card>, c: Card)
    requires |deck| >= 52
    ensures multiset(DealtHand(deck, 0))[c] + multiset(DealtHand(deck, 1))[c]
            + multiset(DealtHand(deck, 2))[c] + multiset(DealtHand(deck, 3))[c]
            == multiset(deck[..52])[c]
  {
    SharesCover(deck[..20], 5, c);
    SharesCover(deck[20..36], 4, c);
    SharesCover(deck[36..52], 4, c);
    DeckThirds(deck);
  }

  /** The dealing orders: the four seats, starting from any one. */
  predicate Rotation(order: seq<int>)
  {
    && |order| == 4 && 0 <= order[0] < 4
    && order[1] == (order[0] + 1) % 4 && order[2] == (order[0] + 2) % 4 && order[3] == (order[0] + 3) % 4
  }

  /** Counting the hands in dealing order counts every hand once. */
  lemma HandCardsInOrder(ps: seq<Player>, order: seq<int>, c: Card)
    requires |ps| == 4 && Rotation(order)
    ensures HandCards(ps)[c] == multiset(ps[order[0]].hand)[c] + multiset(ps[order[1]].hand)[c]
                                + multiset(ps[order[2]].hand)[c] + multiset(ps[order[3]].hand)[c]
  {
    if order[0] == 0 {
      assert order[1] == 1 && order[2] == 2 && order[3] == 3;
    } else if order[0] == 1 {
      assert order[1] == 2 && order[2] == 3 && order[3] == 0;
    } else if order[0] == 2 {
      assert order[1] == 3 && order[2] == 0 && order[3] == 1;
    } else {
      assert order[1] == 0 && order[2] == 1 && order[3] == 2;
    }
  }

  /** The order `generatePlayerOrder` returns is a rotation. */
  lemma PlayerOrderRotation(d: int)
    requires -1 <= d < 4
    ensures Rotation(GeneratePlayerOrder(d))
  {
    var first := Rem(d + 1, 4);
    assert 0 <= first < 4;
    OrderFromSeat(first);
  }

  /** After `dealCards` the hands together are exactly the first 52 cards
      of the deck: each card is dealt once. */
  lemma DealCardsDealsDeck(s: State, deck: seq<Card>)
    requires WellFormed(s) && |deck| >= 52
    ensures HandCards(DealCards(s, deck).players) == multiset(deck[..52])
  {
    var order := GeneratePlayerOrder(s.currentDealer);
    PlayerOrderRotation(s.currentDealer);
    DealCardsHands(s, deck);
    var hands := DealCards(s, deck).players;
    assert hands[order[0]].hand == DealtHand(deck, 0);
    assert hands[order[1]].hand == DealtHand(deck, 1);
    assert hands[order[2]].hand == DealtHand(deck, 2);
    assert hands[order[3]].hand == DealtHand(deck, 3);
    DealtHandsAreDeck(hands, order, deck);
  }

  /** Hands that are the four dealt shares, in a dealing order, hold the
      deck's first 52 cards. */
  lemma DealtHandsAreDeck(ps: seq<Player>, order: seq<int>, deck: seq<Card>)
    requires |ps| == 4 && Rotation(order) && |deck| >= 52
    requires ps[order[0]].hand == DealtHand(deck, 0) && ps[order[1]].hand == DealtHand(deck, 1)
    requires ps[order[2]].hand == DealtHand(deck, 2) && ps[order[3]].hand == DealtHand(deck, 3)
    ensures HandCards(ps) == multiset(deck[..52])
  {
    HandsInOrder(ps, order);
    DealtHandsUnion(deck);
  }

  /** The hands summed in dealing order are all the hands. */
  lemma HandsInOrder(ps: seq<Player>, order: seq<int>)
    requires |ps| == 4 && Rotation(order)
    ensures HandCards(ps) == multiset(ps[order[0]].hand) + multiset(ps[order[1]].hand)
                             + multiset(ps[order[2]].hand) + multiset(ps[order[3]].hand)
  {
    forall c
      ensures HandCards(ps)[c] == (multiset(ps[order[0]].hand) + multiset(ps[order[1]].hand)
                                   + multiset(ps[order[2]].hand) + multiset(ps[order[3]].hand))[c]
    {
      HandCardsInOrder(ps, order, c);
    }
  }

  /** The four dealt hands together are the deck's first 52 cards. */
  lemma DealtHandsUnion(deck: seq<Card>)
    requires |deck| >= 52
    ensures multiset(DealtHand(deck, 0)) + multiset(DealtHand(deck, 1)) + multiset(DealtHand(deck, 2)) + multiset(DealtHand(deck, 3))
            == multiset(deck[..52])
  {
    forall c
      ensures (multiset(DealtHand(deck, 0)) + multiset(DealtHand(deck, 1))
               + multiset(DealtHand(deck, 2)) + multiset(DealtHand(deck, 3)))[c] == multiset(deck[..52])[c]
    {
      DealtHandsCover(deck, c);
    }
  }


  /** The deck's first 52 cards are its three dealing stretches. */
  lemma DeckThirds(deck: seq<Card>)
    requires |deck| >= 52
    ensures multiset(deck[..52]) == multiset(deck[..20]) + multiset(deck[20..36]) + multiset(deck[36..52])
  {
    assert deck[..52] == deck[..20] + deck[20..36] + deck[36..52];
  }

  /** A new deal accounts for all 52 cards: 13 in each hand, nothing in the
      trick or in tricks won, no trump set aside. */
  lemma StartNewDealCount(s: State, deck: seq<Card>)
    requires WellFormed(s) && |deck| >= 52
    ensures var r := StartNewDeal(s, deck);
      && WellFormed(r)
      && HandCards(r.players) == multiset(deck[..52])
      && CardCount(r) == 52
  {
    var reset := ResetForNewDeal(s);
    DealCardsDealsDeck(reset, deck);
    StartNewDealHands(s, deck);
    var r := StartNewDeal(s, deck);
    assert r.players == DealCards(reset, deck).players;
    assert r.teams[0].tricksWon == 0 && r.teams[1].tricksWon == 0;
  }

  // ---------------------------------------------------------------------
  // Trump selection and play keep the count
  // ---------------------------------------------------------------------

  /** Selecting trump moves the chosen card from the selector's hand to
      face down: the count is unchanged. */
  lemma SelectTrumpCount(s: State, playerId: int, card: Card)
    requires WellFormed(s) && s.trumpCard.None?
    requires 0 <= playerId < 4 && card in s.players[playerId].hand
    ensures var r := SelectTrump(s, playerId, card);
      && WellFormed(r)
      && CardCount(r) == CardCount(s)
  {
    SelectTrumpSeated(s, playerId, card);
    var r := SelectTrump(s, playerId, card);
    assert r.players == s.players[playerId := r.players[playerId]];
    HandCountUpdate(s.players, playerId, r.players[playerId]);
  }

  /** Revealing trump moves the face-down card into a hand. */
  lemma RevealCount(s: State)
    requires WellFormed(s) && !s.trumpRevealed
    ensures CardCount(RevealTrump(s)) == CardCount(s)
  {
    RevealTrumpSeated(s);
    var r := RevealTrump(s);
    var owner := Rem(s.currentDealer + 1, 4);
    assert |r.players[owner].hand| == |s.players[owner].hand| + Hidden(s);
    assert r.players == s.players[owner := r.players[owner]];
    HandCountUpdate(s.players, owner, r.players[owner]);
  }

  /** Committing a held card moves it from the hand to the trick. */
  lemma CommitCount(s: State, playerId: int, card: Card)
    requires WellFormed(s) && 0 <= playerId < 4 && card in s.players[playerId].hand
    ensures var r := CommitPlay(s, playerId, playerId, card).1;
      |r.players| == 4 && HandCount(r.players) + 1 == HandCount(s.players)
  {
    CommitHands(s, playerId, playerId, card);
    var r := CommitPlay(s, playerId, playerId, card).1;
    assert r.players == s.players[playerId := r.players[playerId]];
    HandCountUpdate(s.players, playerId, r.players[playerId]);
  }

  /** Resolving a full trick hands it to one of the two teams. */
  lemma ResolveTeam(s: State) returns (t: nat)
    requires WellFormed(s) && |s.currentTrick| == 4
    requires forall j :: 0 <= j < 4 ==> 0 <= s.currentTrick[j].playerId < 4
    ensures t < 2
    ensures GameStates.CompleteTrick(s).0.Some?
    ensures GameStates.CompleteTrick(s).1.teams == s.teams[t := CollectTrick(s.teams[t], CardsOf(s.currentTrick))]
  {
    var w := WinnerIndex(s.currentTrick, s.trumpRevealed, s.trumpSuit);
    var winner := s.currentTrick[w].playerId;
    WellFormedLookups(s, winner);
    assert DetermineTrickWinner(s) == Some(s.players[winner]);
    t := winner % 2;
  }

  /** Resolving a full trick adds one trick won to the winner's team, clears
      the trick and touches no hand. */
  lemma ResolveTally(s: State)
    requires WellFormed(s) && |s.currentTrick| == 4
    requires forall j :: 0 <= j < 4 ==> 0 <= s.currentTrick[j].playerId < 4
    ensures var r := GameStates.CompleteTrick(s);
      && r.0.Some?
      && WellFormed(r.1)
      && r.1.teams[0].tricksWon + r.1.teams[1].tricksWon == s.teams[0].tricksWon + s.teams[1].tricksWon + 1
      && r.1 == s.(teams := r.1.teams, currentTrick := [], leadSuit := None)
  {
    var t := ResolveTeam(s);
    var r := GameStates.CompleteTrick(s);
    assert r.1.teams[t].id == s.teams[t].id;
  }

  /** Completing a deal changes only scores and the dealer: the count and
      the deal in progress are kept. */
  lemma CompleteDealCount(s: State)
    requires InPlay(s)
    ensures var r := CompleteDeal(s);
      && InPlay(r)
      && CardCount(r) == CardCount(s)
  {
    CompleteDealEffects(s);
    var r := CompleteDeal(s);
    assert r.currentTrick == s.currentTrick && r.players == s.players && r.teams == s.teams;
  }

  /** Resolving a full trick moves its four cards to the winner's pile of
      tricks won, and the deal completion touches no card. */
  lemma CompleteTrickCount(s: State)
    requires WellFormed(s) && 0 <= s.currentDealer < 4 && |s.currentTrick| == 4
    requires forall j :: 0 <= j < 4 ==> 0 <= s.currentTrick[j].playerId < 4
    ensures var r := Engine.CompleteTrick(s);
      && InPlay(r)
      && CardCount(r) == CardCount(s)
  {
    ResolveCount(s);
    var resolved := GameStates.CompleteTrick(s).1;
    if SeatZeroEmpty(resolved) {
      CompleteDealCount(resolved);
    }
  }

  /** The resolved trick's four cards are counted among the tricks won. */
  lemma ResolveCount(s: State)
    requires WellFormed(s) && 0 <= s.currentDealer < 4 && |s.currentTrick| == 4
    requires forall j :: 0 <= j < 4 ==> 0 <= s.currentTrick[j].playerId < 4
    ensures var r := GameStates.CompleteTrick(s);
      && r.0.Some?
      && InPlay(r.1)
      && CardCount(r.1) == CardCount(s)
  {
    ResolveTally(s);
  }

  /** A reveal before the commit keeps the count and the deal in
      progress. */
  lemma BeforeCommitCount(s: State, playerId: int, card: Card)
    requires InPlay(s) && LegalPlay(s, playerId, card)
    ensures var s1 := BeforeCommit(s, playerId);
      && InPlay(s1)
      && CardCount(s1) == CardCount(s)
  {
    PlayCardCommits(s, playerId, card);
    if RevealsTrump(s, playerId) {
      RevealCount(s);
    }
  }

  /** A commit below four cards moves the card from the hand to the
      trick. */
  lemma PlayOpenCount(s: State, playerId: int, card: Card)
    requires InPlay(s) && 0 <= playerId < 4 && card in s.players[playerId].hand
    requires |s.currentTrick| != 3
    ensures var r := CommitPlay(s, playerId, playerId, card).1;
      && InPlay(r)
      && CardCount(r) == CardCount(s)
  {
    CommitCount(s, playerId, card);
    CommitOpenSeated(s, playerId, card);
    CommitOpen(s, playerId, playerId, card);
  }

  /** A commit below four cards keeps the seats and teams as set up. */
  lemma CommitOpenSeated(s: State, playerId: int, card: Card)
    requires WellFormed(s) && 0 <= playerId < 4 && card in s.players[playerId].hand
    requires |s.currentTrick| != 3
    ensures WellFormed(CommitPlay(s, playerId, playerId, card).1)
  {
    CommitHands(s, playerId, playerId, card);
    CommitOpen(s, playerId, playerId, card);
  }

  /** The fourth card moves from the hand to the trick, and the trick is
      then resolved. */
  lemma PlayCloseCount(s: State, playerId: int, card: Card)
    requires InPlay(s) && 0 <= playerId < 4 && card in s.players[playerId].hand
    requires |s.currentTrick| == 3
    ensures var r := CommitPlay(s, playerId, playerId, card).1;
      && InPlay(r)
      && CardCount(r) == CardCount(s)
  {
    CommitCount(s, playerId, card);
    CommitCloses(s, playerId, card);
    var r := CommitPlay(s, playerId, playerId, card).1;
    var s2 := s.(players := r.players, currentTrick := s.currentTrick + [CardPlay(card, playerId)],
                 leadSuit := s.leadSuit);
    assert CardCount(s2) == CardCount(s);
    CompleteTrickCount(s2);
  }

  /** `playCard` keeps every card accounted for, whether it rejects the
      play, leaves the trick open or resolves it, and a deal in progress
      stays in progress. */
  lemma PlayCardCount(s: State, playerId: int, card: Card)
    requires InPlay(s)
    ensures var r := Engine.PlayCard(s, playerId, card).1;
      && InPlay(r)
      && CardCount(r) == CardCount(s)
  {
    if LegalPlay(s, playerId, card) {
      PlayCardCommits(s, playerId, card);
      BeforeCommitCount(s, playerId, card);
      var s1 := BeforeCommit(s, playerId);
      if |s1.currentTrick| != 3 {
        PlayOpenCount(s1, playerId, card);
      } else {
        PlayCloseCount(s1, playerId, card);
      }
    }
  }

  // ---------------------------------------------------------------------
  // A whole deal
  // ---------------------------------------------------------------------

  /** After a new deal the seat after the dealer holds the first dealt
      share. */
  lemma SelectorHand(s: State, deck: seq<Card>)
    requires WellFormed(s) && 0 <= s.currentDealer < 4 && |deck| >= 52
    ensures StartNewDeal(s, deck).players[(s.currentDealer + 1) % 4].hand == DealtHand(deck, 0)
  {
    var reset := ResetForNewDeal(s);
    DealCardsHands(reset, deck);
    PlayerOrderAfterDealer(s.currentDealer);
    assert GeneratePlayerOrder(reset.currentDealer)[0] == (s.currentDealer + 1) % 4;
  }

  /** A sequence of `playCard` calls, each a seat and a card. */
  function PlayAll(s: State, plays: seq<(int, Card)>): State
    decreases |plays|
  {
    if plays == [] then s
    else PlayAll(Engine.PlayCard(s, plays[0].0, plays[0].1).1, plays[1..])
  }

  /** Any sequence of plays keeps the count and keeps the deal in
      progress. */
  lemma {:induction false} PlayAllCount(s: State, plays: seq<(int, Card)>)
    requires InPlay(s)
    ensures InPlay(PlayAll(s, plays)) && CardCount(PlayAll(s, plays)) == CardCount(s)
    decreases |plays|
  {
    if plays != [] {
      PlayCardCount(s, plays[0].0, plays[0].1);
      PlayAllCount(Engine.PlayCard(s, plays[0].0, plays[0].1).1, plays[1..]);
    }
  }

  /** Over a whole deal: start the deal, let the seat after the dealer
      choose a trump from its hand, then play any sequence of cards; at
      every point all 52 cards are accounted for. The seat after the dealer
      is first in dealing order, so its hand is `DealtHand(deck, 0)`. */
  lemma DealKeepsFiftyTwo(s: State, deck: seq<Card>, card: Card, plays: seq<(int, Card)>)
    requires WellFormed(s) && 0 <= s.currentDealer < 4 && |deck| >= 52
    requires card in DealtHand(deck, 0)
    ensures var dealt := StartNewDeal(s, deck);
      var chosen := SelectTrump(dealt, (s.currentDealer + 1) % 4, card);
      InPlay(PlayAll(chosen, plays)) && CardCount(PlayAll(chosen, plays)) == 52
  {
    var dealt := StartNewDeal(s, deck);
    StartNewDealCount(s, deck);
    var selector := (s.currentDealer + 1) % 4;
    SelectorHand(s, deck);
    SelectTrumpCount(dealt, selector, card);
    var chosen := SelectTrump(dealt, selector, card);
    assert InPlay(chosen);
    PlayAllCount(chosen, plays);
  }
}
