/** Which cards the state still holds over a deal. The state keeps the
    hands, the current trick, the face-down trump and, for every team, the
    tens of the tricks it won; the other cards of a won trick are dropped.
    So over a deal no card is ever created, and every ten of the deck
    stays held: in a hand, in the trick, face down, or in exactly one
    team's tens. */
module TenConservation {
  import opened Wrappers
  import opened KotlinInt
  import opened Cards
  import opened Players
  import opened Teams
  import opened GameStates
  import opened Engine
  import opened Conservation

  /** The trump card while it lies face down. */
  function HiddenCards(s: State): (m: multiset<Card>)
    ensures |m| == Hidden(s)
  {
    if s.trumpCard.Some? && !s.trumpRevealed then multiset{s.trumpCard.value} else multiset{}
  }

  /** Every card the state holds. */
  function Holdings(s: State): multiset<Card>
    requires |s.players| == 4 && |s.teams| == 2
  {
    HandCards(s.players) + multiset(CardsOf(s.currentTrick)) + HiddenCards(s)
      + multiset(s.teams[0].tensCollected) + multiset(s.teams[1].tensCollected)
  }

  /** `after` holds no card more often than `before` does, and every ten
      exactly as often. */
  ghost predicate KeepsTens(before: multiset<Card>, after: multiset<Card>)
  {
    forall c :: after[c] <= before[c] && (IsTen(c) ==> after[c] == before[c])
  }

  /** Both teams have collected tens only. */
  predicate CollectedTensOnly(teams: seq<Team>)
    requires |teams| == 2
  {
    && (forall c :: c in teams[0].tensCollected ==> IsTen(c))
    && (forall c :: c in teams[1].tensCollected ==> IsTen(c))
  }

  /** Replacing one seat's player swaps that seat's hand in the union of
      hands. */
  lemma HandCardsUpdate(ps: seq<Player>, i: nat, p: Player, c: Card)
    requires |ps| == 4 && i < 4
    ensures HandCards(ps[i := p])[c] + multiset(ps[i].hand)[c] == HandCards(ps)[c] + multiset(p.hand)[c]
  {
    if i == 0 {
    } else if i == 1 {
    } else if i == 2 {
    } else {
    }
  }

  /** A play appended to the trick adds its card to the trick's cards. */
  lemma CardsOfAppend(trick: seq<CardPlay>, play: CardPlay)
    ensures multiset(CardsOf(trick + [play])) == multiset(CardsOf(trick)) + multiset{play.card}
  {
    assert CardsOf(trick + [play]) == CardsOf(trick) + [play.card];
  }

  // ---------------------------------------------------------------------
  // One step at a time
  // ---------------------------------------------------------------------

  /** A new deal holds exactly the first 52 cards of the deck, and no team
      has collected anything. */
  lemma StartNewDealHoldings(s: State, deck: seq<Card>)
    requires WellFormed(s) && |deck| >= 52
    ensures var r := StartNewDeal(s, deck);
      && WellFormed(r)
      && Holdings(r) == multiset(deck[..52])
      && CollectedTensOnly(r.teams)
  {
    StartNewDealCount(s, deck);
    var r := StartNewDeal(s, deck);
    assert r.teams[0].tensCollected == [] && r.teams[1].tensCollected == [];
    assert CardsOf(r.currentTrick) == [];
  }

  /** Selecting trump moves one copy of the card from the selector's hand
      to face down. */
  lemma SelectTrumpAt(s: State, playerId: int, card: Card, c: Card)
    requires WellFormed(s) && s.trumpCard.None?
    requires 0 <= playerId < 4 && card in s.players[playerId].hand
    ensures var r := SelectTrump(s, playerId, card);
      && WellFormed(r) && r.teams == s.teams
      && Holdings(r)[c] == Holdings(s)[c]
  {
    SelectTrumpSeated(s, playerId, card);
    var r := SelectTrump(s, playerId, card);
    assert r.players == s.players[playerId := r.players[playerId]];
    HandCardsUpdate(s.players, playerId, r.players[playerId], c);
  }

  /** Revealing trump moves the face-down card into a hand. */
  lemma RevealAt(s: State, c: Card)
    requires WellFormed(s) && !s.trumpRevealed
    ensures var r := RevealTrump(s);
      && WellFormed(r) && r.teams == s.teams
      && Holdings(r)[c] == Holdings(s)[c]
  {
    RevealTrumpSeated(s);
    var r := RevealTrump(s);
    var owner := Rem(s.currentDealer + 1, 4);
    assert r.players == s.players[owner := r.players[owner]];
    HandCardsUpdate(s.players, owner, r.players[owner], c);
  }

  /** Committing a held card moves one copy of it from the hand into the
      trick. */
  lemma CommitAt(s: State, playerId: int, card: Card, c: Card)
    requires WellFormed(s) && 0 <= playerId < 4 && card in s.players[playerId].hand
    ensures var r := CommitPlay(s, playerId, playerId, card).1;
      var s2 := s.(players := r.players, currentTrick := s.currentTrick + [CardPlay(card, playerId)]);
      && |r.players| == 4
      && Holdings(s2)[c] == Holdings(s)[c]
  {
    CommitHandCards(s, playerId, card, c);
    CardsOfAppend(s.currentTrick, CardPlay(card, playerId));
  }

  /** The committed card leaves the hands once. */
  lemma CommitHandCards(s: State, playerId: int, card: Card, c: Card)
    requires WellFormed(s) && 0 <= playerId < 4 && card in s.players[playerId].hand
    ensures var r := CommitPlay(s, playerId, playerId, card).1;
      && |r.players| == 4
      && HandCards(r.players)[c] + multiset{card}[c] == HandCards(s.players)[c]
  {
    CommitHands(s, playerId, playerId, card);
    var r := CommitPlay(s, playerId, playerId, card).1;
    assert r.players == s.players[playerId := r.players[playerId]];
    HandCardsUpdate(s.players, playerId, r.players[playerId], c);
  }

  /** A commit below four cards keeps every card held. */
  lemma CommitOpenAt(s: State, playerId: int, card: Card, c: Card)
    requires WellFormed(s) && 0 <= playerId < 4 && card in s.players[playerId].hand
    requires |s.currentTrick| != 3
    ensures var r := CommitPlay(s, playerId, playerId, card).1;
      && |r.players| == 4 && r.teams == s.teams
      && Holdings(r)[c] == Holdings(s)[c]
  {
    CommitAt(s, playerId, card, c);
    CommitOpen(s, playerId, playerId, card);
  }

  /** A card is in one of the teams' collected tens. */
  predicate Collected(teams: seq<Team>, c: Card)
    requires |teams| == 2
  {
    c in teams[0].tensCollected || c in teams[1].tensCollected
  }

  /** Resolving a full trick moves its tens to the winner's team and drops
      its other cards. */
  lemma ResolveAt(s: State, c: Card)
    requires WellFormed(s) && |s.currentTrick| == 4
    requires forall j :: 0 <= j < 4 ==> 0 <= s.currentTrick[j].playerId < 4
    ensures var r := GameStates.CompleteTrick(s).1;
      && WellFormed(r)
      && Holdings(r)[c] == Holdings(s)[c] - (if IsTen(c) then 0 else multiset(CardsOf(s.currentTrick))[c])
      && (Collected(r.teams, c) ==> IsTen(c) || Collected(s.teams, c))
  {
    ResolveTally(s);
    var t := ResolveTeam(s);
    var r := GameStates.CompleteTrick(s).1;
    assert r.teams[1 - t] == s.teams[1 - t];
    assert CardsOf(r.currentTrick) == [];
    assert multiset(r.teams[t].tensCollected)[c] == multiset(s.teams[t].tensCollected)[c]
      + (if IsTen(c) then multiset(CardsOf(s.currentTrick))[c] else 0);
  }

  /** The engine's `completeTrick` keeps every ten: completing the deal
      afterwards touches no card. */
  lemma CompleteTrickAt(s: State, c: Card)
    requires WellFormed(s) && |s.currentTrick| == 4
    requires forall j :: 0 <= j < 4 ==> 0 <= s.currentTrick[j].playerId < 4
    ensures var r := Engine.CompleteTrick(s);
      && |r.players| == 4 && |r.teams| == 2
      && Holdings(r)[c] <= Holdings(s)[c]
      && (IsTen(c) ==> Holdings(r)[c] == Holdings(s)[c])
      && (Collected(r.teams, c) ==> IsTen(c) || Collected(s.teams, c))
  {
    ResolveAt(s, c);
    ResolveTally(s);
    var resolved := GameStates.CompleteTrick(s).1;
    var r := Engine.CompleteTrick(s);
    assert r.players == resolved.players && r.teams == resolved.teams && r.currentTrick == resolved.currentTrick;
  }

  /** The fourth card moves into the trick, and the trick is then
      resolved. */
  lemma PlayCloseAt(s: State, playerId: int, card: Card, c: Card)
    requires WellFormed(s) && 0 <= playerId < 4 && card in s.players[playerId].hand
    requires forall j :: 0 <= j < |s.currentTrick| ==> 0 <= s.currentTrick[j].playerId < 4
    requires |s.currentTrick| == 3
    ensures var r := CommitPlay(s, playerId, playerId, card).1;
      && |r.players| == 4 && |r.teams| == 2
      && Holdings(r)[c] <= Holdings(s)[c]
      && (IsTen(c) ==> Holdings(r)[c] == Holdings(s)[c])
      && (Collected(r.teams, c) ==> IsTen(c) || Collected(s.teams, c))
  {
    CommitAt(s, playerId, card, c);
    CommitCloses(s, playerId, card);
    var r := CommitPlay(s, playerId, playerId, card).1;
    var s2 := s.(players := r.players, currentTrick := s.currentTrick + [CardPlay(card, playerId)],
                 leadSuit := s.leadSuit);
    assert Holdings(s2)[c] == Holdings(s)[c];
    assert forall j :: 0 <= j < 4 ==> 0 <= s2.currentTrick[j].playerId < 4;
    CompleteTrickAt(s2, c);
  }

  /** `playCard` never creates a copy of a card and never loses a ten,
      whether it rejects the play, leaves the trick open or resolves it;
      only tens join the collected piles. */
  lemma PlayCardAt(s: State, playerId: int, card: Card, c: Card)
    requires InPlay(s)
    ensures var r := Engine.PlayCard(s, playerId, card).1;
      && InPlay(r)
      && Holdings(r)[c] <= Holdings(s)[c]
      && (IsTen(c) ==> Holdings(r)[c] == Holdings(s)[c])
      && (Collected(r.teams, c) ==> IsTen(c) || Collected(s.teams, c))
  {
    PlayCardCount(s, playerId, card);
    if LegalPlay(s, playerId, card) {
      PlayCardCommits(s, playerId, card);
      BeforeCommitCount(s, playerId, card);
      var s1 := BeforeCommit(s, playerId);
      if RevealsTrump(s, playerId) {
        RevealAt(s, c);
      }
      assert Holdings(s1)[c] == Holdings(s)[c] && s1.teams == s.teams;
      if |s1.currentTrick| != 3 {
        CommitOpenAt(s1, playerId, card, c);
      } else {
        PlayCloseAt(s1, playerId, card, c);
      }
    }
  }

  /** Any sequence of plays never creates a copy of a card and never loses
      a ten. */
  lemma {:induction false} PlayAllAt(s: State, plays: seq<(int, Card)>, c: Card)
    requires InPlay(s)
    ensures var r := PlayAll(s, plays);
      && InPlay(r)
      && Holdings(r)[c] <= Holdings(s)[c]
      && (IsTen(c) ==> Holdings(r)[c] == Holdings(s)[c])
      && (Collected(r.teams, c) ==> IsTen(c) || Collected(s.teams, c))
    decreases |plays|
  {
    if plays != [] {
      var next := Engine.PlayCard(s, plays[0].0, plays[0].1).1;
      PlayCardAt(s, plays[0].0, plays[0].1, c);
      PlayAllAt(next, plays[1..], c);
    }
  }

  // ---------------------------------------------------------------------
  // A whole deal
  // ---------------------------------------------------------------------

  /** Once trump is chosen the state holds the first 52 cards of the deck
      and no team has collected anything. */
  lemma ChosenAt(s: State, deck: seq<Card>, card: Card, c: Card)
    requires WellFormed(s) && 0 <= s.currentDealer < 4 && |deck| >= 52
    requires card in DealtHand(deck, 0)
    ensures var chosen := SelectTrump(StartNewDeal(s, deck), (s.currentDealer + 1) % 4, card);
      && InPlay(chosen)
      && Holdings(chosen)[c] == multiset(deck[..52])[c]
      && !Collected(chosen.teams, c)
  {
    var dealt := StartNewDeal(s, deck);
    StartNewDealHoldings(s, deck);
    var selector := (s.currentDealer + 1) % 4;
    SelectorHand(s, deck);
    SelectTrumpAt(dealt, selector, card, c);
  }

  /** One card over a whole deal: start the deal, let the seat after the
      dealer choose a trump from its hand, then play any sequence of
      cards. */
  lemma DealAt(s: State, deck: seq<Card>, card: Card, plays: seq<(int, Card)>, c: Card)
    requires WellFormed(s) && 0 <= s.currentDealer < 4 && |deck| >= 52
    requires card in DealtHand(deck, 0)
    ensures var dealt := StartNewDeal(s, deck);
      var r := PlayAll(SelectTrump(dealt, (s.currentDealer + 1) % 4, card), plays);
      && InPlay(r)
      && Holdings(r)[c] <= multiset(deck[..52])[c]
      && (IsTen(c) ==> Holdings(r)[c] == multiset(deck[..52])[c])
      && (Collected(r.teams, c) ==> IsTen(c))
  {
    ChosenAt(s, deck, card, c);
    PlayAllAt(SelectTrump(StartNewDeal(s, deck), (s.currentDealer + 1) % 4, card), plays, c);
  }

  /** Over a whole deal every card the state holds comes from the first 52
      cards of the deck, no more often than it occurs there, and every ten
      is held exactly as often as it occurs there: in a hand, in the trick,
      face down, or collected by a team. Collected piles hold tens only. */
  lemma DealKeepsTens(s: State, deck: seq<Card>, card: Card, plays: seq<(int, Card)>)
    requires WellFormed(s) && 0 <= s.currentDealer < 4 && |deck| >= 52
    requires card in DealtHand(deck, 0)
    ensures var dealt := StartNewDeal(s, deck);
      var r := PlayAll(SelectTrump(dealt, (s.currentDealer + 1) % 4, card), plays);
      && InPlay(r)
      && KeepsTens(multiset(deck[..52]), Holdings(r))
      && CollectedTensOnly(r.teams)
  {
    DealAt(s, deck, card, plays, card);
    var r := PlayAll(SelectTrump(StartNewDeal(s, deck), (s.currentDealer + 1) % 4, card), plays);
    var held, dealt := Holdings(r), multiset(deck[..52]);
    forall c
      ensures held[c] <= dealt[c] && (IsTen(c) ==> held[c] == dealt[c])
      ensures Collected(r.teams, c) ==> IsTen(c)
    {
      DealAt(s, deck, card, plays, c);
    }
  }

  /** A team's collected tens are among the cards the state holds. */
  lemma CollectedHeld(s: State, t: int, x: Card)
    requires |s.players| == 4 && |s.teams| == 2 && 0 <= t < 2
    ensures multiset(s.teams[t].tensCollected)[x] <= Holdings(s)[x]
  {
  }

  lemma TensOnlyAt(teams: seq<Team>, t: int)
    requires |teams| == 2 && 0 <= t < 2 && CollectedTensOnly(teams)
    ensures forall i :: 0 <= i < |teams[t].tensCollected| ==> IsTen(teams[t].tensCollected[i])
  {
  }

  /** No element occurs twice in a sequence in which no element has two
      copies. */
  lemma CountOneDistinct<T>(s: seq<T>)
    requires forall x :: multiset(s)[x] <= 1
    ensures Distinct(s)
  {
    forall i, j | 0 <= i < j < |s|
      ensures s[i] != s[j]
    {
      var pre := s[..j];
      assert s == pre + [s[j]] + s[j + 1..];
      assert pre[i] == s[i];
      assert multiset(s)[s[j]] >= multiset(pre)[s[j]] + 1;
    }
  }

  /** With a deck that repeats no card, no team collects a ten twice, so
      at every point of the deal a team has Mendikot (four tens collected)
      exactly when it holds every ten of the deck. */
  lemma DealMendikotIffAllTens(s: State, deck: seq<Card>, card: Card, plays: seq<(int, Card)>, t: int)
    requires WellFormed(s) && 0 <= s.currentDealer < 4 && |deck| >= 52
    requires card in DealtHand(deck, 0)
    requires Distinct(deck[..52]) && 0 <= t < 2
    ensures var dealt := StartNewDeal(s, deck);
      var r := PlayAll(SelectTrump(dealt, (s.currentDealer + 1) % 4, card), plays);
      && |r.teams| == 2
      && Distinct(r.teams[t].tensCollected)
      && (HasMendikot(r.teams[t]) <==> forall c :: IsTen(c) ==> c in r.teams[t].tensCollected)
  {
    DealKeepsTens(s, deck, card, plays);
    var dealt := StartNewDeal(s, deck);
    var r := PlayAll(SelectTrump(dealt, (s.currentDealer + 1) % 4, card), plays);
    var tens := r.teams[t].tensCollected;
    forall x
      ensures multiset(tens)[x] <= 1
    {
      CollectedHeld(r, t, x);
      DistinctCountOne(deck[..52], x);
    }
    CountOneDistinct(tens);
    TensOnlyAt(r.teams, t);
    MendikotIffAllTens(r.teams[t]);
  }
}
