/** The state of a match and of the deal in progress, with the rules that
    read or update it directly (model/GameState.kt). */
module GameStates {
  import opened Wrappers
  import opened KotlinInt
  import opened Cards
  import opened Players
  import opened Teams

  /** One card of the trick and the seat that played it. */
  datatype CardPlay = CardPlay(card: Card, playerId: int)

  datatype State = State(
    players: seq<Player>,
    teams: seq<Team>,
    currentDealer: int,
    currentTurn: int,
    trumpSuit: Option<Suit>,
    trumpRevealed: bool,
    trumpCard: Option<Card>,
    leadSuit: Option<Suit>,
    currentTrick: seq<CardPlay>,
    dealsPlayed: int,
    teamScores: map<int, int>)

  /** `GameState()`: the state before a match is initialised. */
  const Initial: State := State([], [], -1, -1, None, false, None, None, [], 0, map[])

  /** The shape every initialised four-player match keeps: seat `i` has id
      `i` and belongs to team `i % 2`, team `t` has id `t`, and the dealer
      is a seat or still unset (-1). */
  predicate WellFormed(s: State)
  {
    && |s.players| == 4
    && (forall i :: 0 <= i < 4 ==> s.players[i].id == i && s.players[i].teamId == i % 2)
    && |s.teams| == 2
    && (forall t :: 0 <= t < 2 ==> s.teams[t].id == t)
    && -1 <= s.currentDealer < 4
  }

  // ---------------------------------------------------------------------
  // Lookups (`List.find` returns the first match)
  // ---------------------------------------------------------------------

  /** The position of the first `id` in `ids`, as `List.find` meets it. */
  function FirstIndexOf(ids: seq<int>, id: int): (r: Option<nat>)
    ensures r.Some? ==> r.value < |ids| && ids[r.value] == id && forall j :: 0 <= j < r.value ==> ids[j] != id
    ensures r.None? ==> forall j :: 0 <= j < |ids| ==> ids[j] != id
  {
    if ids == [] then None
    else if ids[0] == id then Some(0)
    else
      match FirstIndexOf(ids[1..], id)
      case None => None
      case Some(k) => Some(k + 1)
  }

  /** The index of the first player with id `id`. */
  function PlayerIndex(ps: seq<Player>, id: int): (r: Option<nat>)
    ensures r.Some? ==> r.value < |ps| && ps[r.value].id == id && forall j :: 0 <= j < r.value ==> ps[j].id != id
    ensures r.None? ==> forall j :: 0 <= j < |ps| ==> ps[j].id != id
  {
    var ids := seq(|ps|, i requires 0 <= i < |ps| => ps[i].id);
    assert forall j :: 0 <= j < |ps| ==> ids[j] == ps[j].id;
    FirstIndexOf(ids, id)
  }

  /** The teams' ids, in list order. */
  function TeamIds(ts: seq<Team>): (ids: seq<int>)
    ensures |ids| == |ts| && forall j :: 0 <= j < |ts| ==> ids[j] == ts[j].id
  {
    seq(|ts|, i requires 0 <= i < |ts| => ts[i].id)
  }

  /** `getPlayer(id)`. */
  function GetPlayer(s: State, id: int): (r: Option<Player>)
    ensures r.Some? ==> r.value.id == id && r.value in s.players
    ensures r.None? ==> forall j :: 0 <= j < |s.players| ==> s.players[j].id != id
  {
    match PlayerIndex(s.players, id)
    case None => None
    case Some(i) => Some(s.players[i])
  }

  /** `getTeam(id)`. */
  function GetTeam(s: State, id: int): (r: Option<Team>)
    ensures r.Some? ==> r.value.id == id && r.value in s.teams
    ensures r.None? ==> forall j :: 0 <= j < |s.teams| ==> s.teams[j].id != id
  {
    match FirstIndexOf(TeamIds(s.teams), id)
    case None => None
    case Some(t) => Some(s.teams[t])
  }

  /** `getTeamIdForPlayer(id)`: the `teamId` recorded on the player. */
  function GetTeamIdForPlayer(s: State, id: int): (r: Option<int>)
    ensures r.None? <==> forall j :: 0 <= j < |s.players| ==> s.players[j].id != id
    ensures r.Some? ==> exists p :: p in s.players && p.id == id && p.teamId == r.value
  {
    match GetPlayer(s, id)
    case None => None
    case Some(p) => Some(p.teamId)
  }

  /** The position in `teams` of the team `getTeamForPlayer(id)` finds. */
  function TeamIndexForPlayer(s: State, id: int): (r: Option<nat>)
    ensures r.Some? ==> r.value < |s.teams| && GetTeamIdForPlayer(s, id) == Some(s.teams[r.value].id)
    ensures r.None? <==>
      || GetTeamIdForPlayer(s, id).None?
      || forall t :: 0 <= t < |s.teams| ==> s.teams[t].id != GetTeamIdForPlayer(s, id).value
  {
    match GetTeamIdForPlayer(s, id)
    case None => None
    case Some(t) => FirstIndexOf(TeamIds(s.teams), t)
  }

  /** `getTeamForPlayer(id)`. */
  function GetTeamForPlayer(s: State, id: int): (r: Option<Team>)
    ensures r.Some? ==> r.value in s.teams && exists p :: p in s.players && p.id == id && p.teamId == r.value.id
    ensures r.Some? <==> TeamIndexForPlayer(s, id).Some?
    ensures r.Some? ==> r.value == s.teams[TeamIndexForPlayer(s, id).value]
  {
    match GetTeamIdForPlayer(s, id)
    case None => None
    case Some(t) => GetTeam(s, t)
  }

  /** In a well-formed state seat `id` sits at index `id`, team `t` at
      index `t`, and the team of seat `id` is `id % 2`. */
  lemma WellFormedLookups(s: State, id: int)
    requires WellFormed(s)
    ensures PlayerIndex(s.players, id) == if 0 <= id < 4 then Some(id) else None
    ensures FirstIndexOf(TeamIds(s.teams), id) == if 0 <= id < 2 then Some(id) else None
    ensures 0 <= id < 4 ==> TeamIndexForPlayer(s, id) == Some(id % 2)
    ensures 0 <= id < 4 ==> GetTeamForPlayer(s, id) == Some(s.teams[id % 2])
  {
    if 0 <= id < 4 {
      assert s.players[id].id == id;
      assert s.teams[id % 2].id == id % 2;
      var r := FirstIndexOf(TeamIds(s.teams), id % 2);
      assert r.Some?;
    }
    if 0 <= id < 2 {
      assert s.teams[id].id == id;
    }
  }

  /** `getNextPlayer(id)`: the seat after `id`, wrapping around the table.
      Kotlin's `%` keeps the sign of `id + 1`, so the source needs a
      non-negative remainder to index the list. */
  function GetNextPlayer(s: State, id: int): (r: Player)
    requires |s.players| > 0 && Rem(id + 1, |s.players|) >= 0
    ensures r in s.players
  {
    s.players[Rem(id + 1, |s.players|)]
  }

  /** `getPartner(id)`: the player two seats on, if there is one. */
  function GetPartner(s: State, id: int): (r: Option<Player>)
    requires |s.players| > 0
    ensures r.Some? ==> r.value in s.players && r.value.id == Rem(id + 2, |s.players|)
    ensures r.None? ==> forall j :: 0 <= j < |s.players| ==> s.players[j].id != Rem(id + 2, |s.players|)
  {
    GetPlayer(s, Rem(id + 2, |s.players|))
  }

  /** Seating: the next seat of `i` is `(i + 1) % 4`, and the partner of `i`
      is the other seat of `i`'s team. */
  lemma NextAndPartner(s: State, i: int)
    requires WellFormed(s) && 0 <= i < 4
    ensures GetNextPlayer(s, i).id == (i + 1) % 4
    ensures GetPartner(s, i).Some?
    ensures GetPartner(s, i).value.id == (i + 2) % 4 != i
    ensures GetPartner(s, i).value.teamId == s.players[i].teamId
  {
    WellFormedLookups(s, (i + 2) % 4);
  }

  // ---------------------------------------------------------------------
  // Match initialisation
  // ---------------------------------------------------------------------

  /** `initializeGame(names)`: one player per name (id and position equal
      to the index), Team A = seats 0 and 2, Team B = seats 1 and 3, both
      match scores set to 0, dealer and turn unset. Fewer than four names
      make the source throw; that is `None` here. The trump, trick and lead
      fields are copied from `s` unchanged, as `copy()` does. */
  function InitializeGame(s: State, names: seq<string>): (r: Option<State>)
    ensures r.Some? <==> |names| >= 4
    ensures r.Some? ==>
      && |r.value.players| == |names|
      && (forall i :: 0 <= i < |names| ==>
            r.value.players[i].id == i && r.value.players[i].name == names[i] && r.value.players[i].hand == [])
      && (forall i :: 0 <= i < 4 ==> r.value.players[i].teamId == i % 2)
      && |r.value.teams| == 2
      && r.value.teams[0].id == 0 && r.value.teams[0].players == [0, 2]
      && r.value.teams[1].id == 1 && r.value.teams[1].players == [1, 3]
      && (forall t :: 0 <= t < 2 ==> r.value.teams[t].tricksWon == 0 && r.value.teams[t].tensCollected == [])
      && r.value.teamScores.Keys == s.teamScores.Keys + {0, 1}
      && r.value.teamScores[0] == 0 && r.value.teamScores[1] == 0
      && r.value.currentDealer == -1 && r.value.currentTurn == -1 && r.value.dealsPlayed == 0
    ensures |names| == 4 ==> r.Some? && WellFormed(r.value)
  {
    if |names| < 4 then None
    else
      var created := seq(|names|, i requires 0 <= i < |names| => Player(i, names[i], i, [], 0));
      var a0 := AddPlayer(Team(0, "Team A", [], [], 0), created[0]);
      var a2 := AddPlayer(a0.0, created[2]);
      var b1 := AddPlayer(Team(1, "Team B", [], [], 0), created[1]);
      var b3 := AddPlayer(b1.0, created[3]);
      var seated := created[0 := a0.1][2 := a2.1][1 := b1.1][3 := b3.1];
      Some(s.(
        players := seated,
        teams := [a2.0, b3.0],
        currentDealer := -1,
        currentTurn := -1,
        dealsPlayed := 0,
        teamScores := s.teamScores[0 := 0][1 := 0]))
  }

  // ---------------------------------------------------------------------
  // Trick resolution
  // ---------------------------------------------------------------------

  /** `currentTrick.map { it.card }`. */
  function CardsOf(trick: seq<CardPlay>): (cards: seq<Card>)
    ensures |cards| == |trick|
    ensures forall i :: 0 <= i < |trick| ==> cards[i] == trick[i].card
  {
    seq(|trick|, i requires 0 <= i < |trick| => trick[i].card)
  }

  /** The card is of the trump suit (never, while no trump is chosen). */
  predicate IsTrump(c: Card, trumpSuit: Option<Suit>)
  {
    trumpSuit == Some(c.suit)
  }

  /** Trump is revealed and at least one card of the trick is a trump. */
  predicate TrumpInPlay(trick: seq<CardPlay>, revealed: bool, trumpSuit: Option<Suit>)
  {
    revealed && exists i :: 0 <= i < |trick| && IsTrump(trick[i].card, trumpSuit)
  }

  /** Trump is still hidden and the trick was led in the trump suit. */
  predicate HiddenTrumpLed(trick: seq<CardPlay>, revealed: bool, trumpSuit: Option<Suit>)
    requires |trick| > 0
  {
    !revealed && IsTrump(trick[0].card, trumpSuit)
  }

  /** The plays that can win: the trumps when a revealed trump was played;
      only the lead when hidden trump was led; else the lead-suit cards. */
  predicate Contender(trick: seq<CardPlay>, i: int, revealed: bool, trumpSuit: Option<Suit>)
    requires 0 <= i < |trick|
  {
    if TrumpInPlay(trick, revealed, trumpSuit) then IsTrump(trick[i].card, trumpSuit)
    else if HiddenTrumpLed(trick, revealed, trumpSuit) then i == 0
    else trick[i].card.suit == trick[0].card.suit
  }

  /** Reference rule for the winner: the first contender of highest value. */
  predicate IsTrickWinner(trick: seq<CardPlay>, w: int, revealed: bool, trumpSuit: Option<Suit>)
  {
    && 0 <= w < |trick|
    && Contender(trick, w, revealed, trumpSuit)
    && (forall i :: 0 <= i < |trick| && Contender(trick, i, revealed, trumpSuit) ==>
          Value(trick[i].card.rank) <= Value(trick[w].card.rank))
    && (forall i :: 0 <= i < w && Contender(trick, i, revealed, trumpSuit) ==>
          Value(trick[i].card.rank) < Value(trick[w].card.rank))
  }

  /** At most one play satisfies the reference rule. */
  lemma TrickWinnerUnique(trick: seq<CardPlay>, w1: int, w2: int, revealed: bool, trumpSuit: Option<Suit>)
    requires IsTrickWinner(trick, w1, revealed, trumpSuit)
    requires IsTrickWinner(trick, w2, revealed, trumpSuit)
    ensures w1 == w2
  {
  }

  /** One iteration of the loop of `determineTrickWinner`: play `k`
      against the winning play so far, `w`. */
  function WinnerStep(trick: seq<CardPlay>, w: nat, k: nat, revealed: bool, trumpSuit: Option<Suit>): nat
    requires w < |trick| && k < |trick|
  {
    var cur := trick[k].card;
    var win := trick[w].card;
    if revealed && IsTrump(cur, trumpSuit) then
      if !IsTrump(win, trumpSuit) || Value(cur.rank) > Value(win.rank) then k else w
    else if cur.suit == trick[0].card.suit && !IsTrump(win, trumpSuit) then
      if Value(cur.rank) > Value(win.rank) then k else w
    else w
  }

  /** The index the loop of `determineTrickWinner` ends on: the loop
      computes the reference winner. */
  function WinnerIndex(trick: seq<CardPlay>, revealed: bool, trumpSuit: Option<Suit>): (w: nat)
    requires |trick| > 0
    ensures w < |trick|
    ensures IsTrickWinner(trick, w, revealed, trumpSuit)
    decreases |trick|
  {
    if |trick| == 1 then 0
    else
      var pre := WinnerIndex(trick[..|trick| - 1], revealed, trumpSuit);
      WinnerStepCorrect(trick, pre, revealed, trumpSuit);
      WinnerStep(trick, pre, |trick| - 1, revealed, trumpSuit)
  }

  /** Appending a play that does not change whether a revealed trump is in
      play leaves the earlier plays' contender status as it was. */
  lemma ContendersKept(trick: seq<CardPlay>, revealed: bool, trumpSuit: Option<Suit>)
    requires |trick| >= 2
    requires TrumpInPlay(trick, revealed, trumpSuit) == TrumpInPlay(trick[..|trick| - 1], revealed, trumpSuit)
    ensures forall i :: 0 <= i < |trick| - 1 ==>
      Contender(trick, i, revealed, trumpSuit) == Contender(trick[..|trick| - 1], i, revealed, trumpSuit)
  {
    var pre := trick[..|trick| - 1];
    assert pre[0] == trick[0];
    forall i | 0 <= i < |trick| - 1
      ensures Contender(trick, i, revealed, trumpSuit) == Contender(pre, i, revealed, trumpSuit)
    {
      assert pre[i] == trick[i];
    }
  }

  /** The first revealed trump of the trick takes it over. */
  lemma WinnerStepFirstTrump(trick: seq<CardPlay>, w: nat, revealed: bool, trumpSuit: Option<Suit>)
    requires |trick| >= 2
    requires IsTrickWinner(trick[..|trick| - 1], w, revealed, trumpSuit)
    requires revealed && IsTrump(trick[|trick| - 1].card, trumpSuit)
    requires !TrumpInPlay(trick[..|trick| - 1], revealed, trumpSuit)
    ensures IsTrickWinner(trick, WinnerStep(trick, w, |trick| - 1, revealed, trumpSuit), revealed, trumpSuit)
  {
    var n := |trick|;
    var pre := trick[..n - 1];
    assert pre[w] == trick[w];
    assert !IsTrump(trick[w].card, trumpSuit);
    assert TrumpInPlay(trick, revealed, trumpSuit);
    forall i | 0 <= i < n - 1
      ensures !Contender(trick, i, revealed, trumpSuit)
    {
      assert pre[i] == trick[i];
    }
  }

  /** A play that does not bring the first revealed trump is compared in
      the mode the trick is already in. */
  lemma WinnerStepSameMode(trick: seq<CardPlay>, w: nat, revealed: bool, trumpSuit: Option<Suit>)
    requires |trick| >= 2
    requires IsTrickWinner(trick[..|trick| - 1], w, revealed, trumpSuit)
    requires TrumpInPlay(trick, revealed, trumpSuit) == TrumpInPlay(trick[..|trick| - 1], revealed, trumpSuit)
    ensures IsTrickWinner(trick, WinnerStep(trick, w, |trick| - 1, revealed, trumpSuit), revealed, trumpSuit)
  {
    var n := |trick|;
    var pre := trick[..n - 1];
    ContendersKept(trick, revealed, trumpSuit);
    assert pre[0] == trick[0] && pre[w] == trick[w];
    if !TrumpInPlay(pre, revealed, trumpSuit) && !HiddenTrumpLed(pre, revealed, trumpSuit) {
      // the winner so far follows the lead, which is not a trump here
      assert pre[w].card.suit == pre[0].card.suit;
      if revealed {
        assert !IsTrump(pre[w].card, trumpSuit);
      } else {
        assert !IsTrump(pre[0].card, trumpSuit);
      }
    }
  }

  /** One more play keeps the loop's winner equal to the reference winner. */
  lemma WinnerStepCorrect(trick: seq<CardPlay>, w: nat, revealed: bool, trumpSuit: Option<Suit>)
    requires |trick| >= 2
    requires IsTrickWinner(trick[..|trick| - 1], w, revealed, trumpSuit)
    ensures IsTrickWinner(trick, WinnerStep(trick, w, |trick| - 1, revealed, trumpSuit), revealed, trumpSuit)
  {
    var n := |trick|;
    var pre := trick[..n - 1];
    if revealed && IsTrump(trick[n - 1].card, trumpSuit) && !TrumpInPlay(pre, revealed, trumpSuit) {
      WinnerStepFirstTrump(trick, w, revealed, trumpSuit);
    } else {
      assert TrumpInPlay(trick, revealed, trumpSuit) == TrumpInPlay(pre, revealed, trumpSuit) by {
        if TrumpInPlay(pre, revealed, trumpSuit) {
          var j :| 0 <= j < n - 1 && IsTrump(pre[j].card, trumpSuit);
          assert trick[j] == pre[j];
        }
        if TrumpInPlay(trick, revealed, trumpSuit) {
          var j :| 0 <= j < n && IsTrump(trick[j].card, trumpSuit);
          if j < n - 1 {
            assert pre[j] == trick[j];
          }
        }
      }
      WinnerStepSameMode(trick, w, revealed, trumpSuit);
    }
  }

  /** `determineTrickWinner()`: no winner for an empty trick; otherwise the
      player whose id is on the reference winner's play (if that id is
      seated). */
  function DetermineTrickWinner(s: State): (r: Option<Player>)
    ensures |s.currentTrick| == 0 ==> r.None?
    ensures |s.currentTrick| > 0 ==>
      exists w :: IsTrickWinner(s.currentTrick, w, s.trumpRevealed, s.trumpSuit)
        && r == GetPlayer(s, s.currentTrick[w].playerId)
  {
    if |s.currentTrick| == 0 then None
    else
      var w := WinnerIndex(s.currentTrick, s.trumpRevealed, s.trumpSuit);
      GetPlayer(s, s.currentTrick[w].playerId)
  }

  /** With a revealed trump in the trick, the winner played the highest trump. */
  lemma TrumpTrickWinner(s: State)
    requires TrumpInPlay(s.currentTrick, s.trumpRevealed, s.trumpSuit)
    ensures DetermineTrickWinner(s).Some? ==>
      exists w :: 0 <= w < |s.currentTrick|
        && s.currentTrick[w].playerId == DetermineTrickWinner(s).value.id
        && IsTrump(s.currentTrick[w].card, s.trumpSuit)
        && forall i :: 0 <= i < |s.currentTrick| && IsTrump(s.currentTrick[i].card, s.trumpSuit) ==>
             Value(s.currentTrick[i].card.rank) <= Value(s.currentTrick[w].card.rank)
  {
  }

  /** Otherwise, unless hidden trump was led, the winner played the highest
      card of the suit led. */
  lemma LeadSuitTrickWinner(s: State)
    requires |s.currentTrick| > 0
    requires !TrumpInPlay(s.currentTrick, s.trumpRevealed, s.trumpSuit)
    requires !HiddenTrumpLed(s.currentTrick, s.trumpRevealed, s.trumpSuit)
    ensures DetermineTrickWinner(s).Some? ==>
      exists w :: 0 <= w < |s.currentTrick|
        && s.currentTrick[w].playerId == DetermineTrickWinner(s).value.id
        && s.currentTrick[w].card.suit == s.currentTrick[0].card.suit
        && forall i :: 0 <= i < |s.currentTrick| && s.currentTrick[i].card.suit == s.currentTrick[0].card.suit ==>
             Value(s.currentTrick[i].card.rank) <= Value(s.currentTrick[w].card.rank)
  {
  }

  /** The hidden-trump quirk: when the trick is led in the still hidden
      trump suit, no later card can beat the lead, whatever its rank. */
  lemma HiddenTrumpLeadWins(s: State)
    requires |s.currentTrick| > 0
    requires HiddenTrumpLed(s.currentTrick, s.trumpRevealed, s.trumpSuit)
    ensures DetermineTrickWinner(s) == GetPlayer(s, s.currentTrick[0].playerId)
  {
  }

  // ---------------------------------------------------------------------
  // Trick bookkeeping
  // ---------------------------------------------------------------------

  /** The lead suit is recorded exactly while a trick is under way, and it
      is the suit of the trick's first card. */
  predicate LeadMatchesTrick(s: State)
  {
    if |s.currentTrick| == 0 then s.leadSuit.None?
    else s.leadSuit == Some(s.currentTrick[0].card.suit)
  }

  /** `addCardToTrick(card, playerId)`: the play is appended; the lead suit
      is set only when the play is the trick's first card. */
  function AddCardToTrick(s: State, card: Card, playerId: int): (r: State)
    ensures r.currentTrick == s.currentTrick + [CardPlay(card, playerId)]
    ensures |s.currentTrick| == 0 ==> r.leadSuit == Some(card.suit)
    ensures |s.currentTrick| != 0 ==> r.leadSuit == s.leadSuit
    ensures r == s.(currentTrick := r.currentTrick, leadSuit := r.leadSuit)
    ensures LeadMatchesTrick(s) ==> LeadMatchesTrick(r)
  {
    var trick := s.currentTrick + [CardPlay(card, playerId)];
    if |trick| == 1 then s.(currentTrick := trick, leadSuit := Some(card.suit))
    else s.(currentTrick := trick)
  }

  /** `completeTrick()`: the winner's team collects the trick, the trick and
      the lead suit are cleared, and the winner's id is returned. When no
      winner or no team is found nothing changes. */
  function CompleteTrick(s: State): (r: (Option<int>, State))
    ensures r.0.None? ==> r.1 == s
    ensures r.0.Some? ==>
      && (exists i :: 0 <= i < |s.currentTrick| && s.currentTrick[i].playerId == r.0.value)
      && r.1.currentTrick == [] && r.1.leadSuit.None?
      && |r.1.teams| == |s.teams|
      && r.1 == s.(teams := r.1.teams, currentTrick := [], leadSuit := None)
  {
    match DetermineTrickWinner(s)
    case None => (None, s)
    case Some(winner) =>
      match TeamIndexForPlayer(s, winner.id)
      case None => (None, s)
      case Some(t) =>
        var collected := CollectTrick(s.teams[t], CardsOf(s.currentTrick));
        (Some(winner.id), s.(teams := s.teams[t := collected], currentTrick := [], leadSuit := None))
  }

  /** In a well-formed state whose trick holds seated players, the trick is
      always resolved: the reference winner's team gains the trick and its
      tens, the other team is untouched, and the winner's id is returned. */
  lemma CompleteTrickEffects(s: State)
    requires WellFormed(s)
    requires |s.currentTrick| > 0
    requires forall i :: 0 <= i < |s.currentTrick| ==> 0 <= s.currentTrick[i].playerId < 4
    ensures var r := CompleteTrick(s);
      exists w :: IsTrickWinner(s.currentTrick, w, s.trumpRevealed, s.trumpSuit)
        && var winner := s.currentTrick[w].playerId;
        && r.0 == Some(winner)
        && r.1.teams[winner % 2] == CollectTrick(s.teams[winner % 2], CardsOf(s.currentTrick))
        && r.1.teams[1 - winner % 2] == s.teams[1 - winner % 2]
        && r.1 == s.(teams := r.1.teams, currentTrick := [], leadSuit := None)
  {
    var w := WinnerIndex(s.currentTrick, s.trumpRevealed, s.trumpSuit);
    var winner := s.currentTrick[w].playerId;
    WellFormedLookups(s, winner);
    assert DetermineTrickWinner(s) == Some(s.players[winner]);
    assert TeamIndexForPlayer(s, winner) == Some(winner % 2);
  }

  // ---------------------------------------------------------------------
  // Deal scoring and rotation
  // ---------------------------------------------------------------------

  /** A team's match score, 0 when it has none yet (`?: 0`). */
  function Score(scores: map<int, int>, t: int): int
  {
    if t in scores then scores[t] else 0
  }

  /** `updateScoreForDeal(w)`: team `w` scores one more deal; no other
      team's score changes. */
  function UpdateScoreForDeal(s: State, winningTeamId: int): (r: State)
    ensures Score(r.teamScores, winningTeamId) == Score(s.teamScores, winningTeamId) + 1
    ensures forall t :: t != winningTeamId ==> Score(r.teamScores, t) == Score(s.teamScores, t)
    ensures r.teamScores.Keys == s.teamScores.Keys + {winningTeamId}
    ensures r == s.(teamScores := r.teamScores)
  {
    s.(teamScores := s.teamScores[winningTeamId := Score(s.teamScores, winningTeamId) + 1])
  }

  /** `determineNextDealer(won, whitewash)`: the seat after the dealer when
      the dealer's team won, the dealer's partner when it lost to a
      whitewash, and the same dealer after an ordinary loss. */
  function DetermineNextDealer(s: State, currentDealerTeamWon: bool, whitewash: bool): (next: int)
    ensures 0 <= s.currentDealer < 4 ==>
      && 0 <= next < 4
      && (next % 2 == s.currentDealer % 2 <==> !currentDealerTeamWon)
  {
    if !currentDealerTeamWon && whitewash then Rem(s.currentDealer + 2, 4)
    else if !currentDealerTeamWon then s.currentDealer
    else Rem(s.currentDealer + 1, 4)
  }

  /** Whatever the outcome, the next dealer sits in the team that lost the
      deal: the seat after a winning dealer, or the losing dealer or their
      partner. A whitewash moves the deal to the partner. */
  lemma NextDealerOnLosingTeam(s: State, dealerTeamWon: bool, whitewash: bool)
    requires 0 <= s.currentDealer < 4
    ensures var next := DetermineNextDealer(s, dealerTeamWon, whitewash);
      && 0 <= next < 4
      && (next % 2 == s.currentDealer % 2 <==> !dealerTeamWon)
      && (next == s.currentDealer <==> !dealerTeamWon && !whitewash)
      && (dealerTeamWon ==> next == (s.currentDealer + 1) % 4)
      && (!dealerTeamWon && whitewash ==> next == (s.currentDealer + 2) % 4)
  {
  }

  /** `resetForNewDeal()`: hands, tallies, trump, lead and trick are
      cleared and the deal counter advances; rosters, seating, dealer, turn
      and match scores are kept. */
  function ResetForNewDeal(s: State): (r: State)
    ensures |r.players| == |s.players| && |r.teams| == |s.teams|
    ensures forall i :: 0 <= i < |s.players| ==> r.players[i] == s.players[i].(hand := [])
    ensures forall t :: 0 <= t < |s.teams| ==>
      r.teams[t].tricksWon == 0 && r.teams[t].tensCollected == [] && r.teams[t].players == s.teams[t].players && r.teams[t].id == s.teams[t].id
    ensures r.trumpCard.None? && r.trumpSuit.None? && !r.trumpRevealed
    ensures r.leadSuit.None? && r.currentTrick == []
    ensures r.dealsPlayed == s.dealsPlayed + 1
    ensures r.teamScores == s.teamScores
    ensures r.currentDealer == s.currentDealer && r.currentTurn == s.currentTurn
    ensures WellFormed(s) ==> WellFormed(r)
  {
    s.(
      players := seq(|s.players|, i requires 0 <= i < |s.players| => ClearHand(s.players[i])),
      teams := seq(|s.teams|, t requires 0 <= t < |s.teams| => ResetScore(s.teams[t])),
      trumpSuit := None,
      trumpRevealed := false,
      trumpCard := None,
      leadSuit := None,
      currentTrick := [],
      dealsPlayed := s.dealsPlayed + 1)
  }
}
