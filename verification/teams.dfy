/** A partnership and its tallies for the current deal (model/Team.kt). */
module Teams {
  import opened Cards
  import opened Players

  /** Members are recorded by seat id; `tensCollected` and `tricksWon`
      count what the team has taken in the current deal. */
  datatype Team = Team(id: int, name: string, players: seq<int>, tensCollected: seq<Card>, tricksWon: int)

  /** `addPlayer`: the seat joins the roster and learns its team id. */
  function AddPlayer(t: Team, p: Player): (r: (Team, Player))
    ensures |r.0.players| == |t.players| + 1
    ensures r.0.players[..|t.players|] == t.players && r.0.players[|t.players|..] == [p.id]
    ensures r.0 == t.(players := r.0.players)
    ensures r.1.teamId == t.id && r.1 == p.(teamId := r.1.teamId)
  {
    (t.(players := t.players + [p.id]), p.(teamId := t.id))
  }

  /** `collectTrick`: one more trick, and every ten of the trick (and no
      other card) joins `tensCollected`. */
  function CollectTrick(t: Team, trick: seq<Card>): (r: Team)
    ensures r.tricksWon == t.tricksWon + 1
    ensures |r.tensCollected| >= |t.tensCollected|
    ensures r.tensCollected[..|t.tensCollected|] == t.tensCollected
    ensures forall c :: multiset(r.tensCollected)[c] == multiset(t.tensCollected)[c] + (if IsTen(c) then multiset(trick)[c] else 0)
    ensures r == t.(tricksWon := r.tricksWon, tensCollected := r.tensCollected)
  {
    TensOfCounts(trick);
    t.(tricksWon := t.tricksWon + 1, tensCollected := t.tensCollected + TensOf(trick))
  }

  /** `hasMendikot`: the team has collected four tens. */
  predicate HasMendikot(t: Team)
  {
    |t.tensCollected| == 4
  }

  /** `hasWhitewash`: the team has won all thirteen tricks. */
  predicate HasWhitewash(t: Team)
  {
    t.tricksWon == 13
  }

  /** A deal has thirteen tricks, so a team makes a whitewash exactly when
      the other team took none, and at most one team can. */
  lemma WhitewashIffOpponentBlank(a: Team, b: Team)
    requires a.tricksWon + b.tricksWon == 13 && a.tricksWon >= 0 && b.tricksWon >= 0
    ensures HasWhitewash(a) <==> b.tricksWon == 0
    ensures !(HasWhitewash(a) && HasWhitewash(b))
  {
  }

  /** `resetScore`: the deal's tallies are cleared, the roster is kept. */
  function ResetScore(t: Team): (r: Team)
    ensures |r.tensCollected| == 0 && r.tricksWon == 0
    ensures r.id == t.id && r.name == t.name && r.players == t.players
  {
    t.(tensCollected := [], tricksWon := 0)
  }

  /** A sequence without repeats has as many distinct elements as entries. */
  lemma {:induction false} DistinctElementCount(s: seq<Card>)
    requires Distinct(s)
    ensures |set c | c in s| == |s|
    decreases |s|
  {
    if s != [] {
      var rest := s[1..];
      assert Distinct(rest) by {
        forall i, j | 0 <= i < j < |rest|
          ensures rest[i] != rest[j]
        {
          assert rest[i] == s[i + 1] && rest[j] == s[j + 1];
        }
      }
      DistinctElementCount(rest);
      assert s[0] !in rest by {
        forall i | 0 <= i < |rest|
          ensures rest[i] != s[0]
        {
          assert rest[i] == s[i + 1];
        }
      }
      assert (set c | c in s) == (set c | c in rest) + {s[0]};
    }
  }

  /** The set of the four tens. */
  lemma AllTensSet()
    ensures forall c :: IsTen(c) <==> c in AllTens
    ensures |set c | c in AllTens| == 4
  {
    forall c: Card | IsTen(c)
      ensures c in AllTens
    {
      match c.suit
      case Hearts => assert c == AllTens[0];
      case Spades => assert c == AllTens[1];
      case Diamonds => assert c == AllTens[2];
      case Clubs => assert c == AllTens[3];
    }
    assert (set c | c in AllTens) == {Card(Hearts, Ten), Card(Spades, Ten), Card(Diamonds, Ten), Card(Clubs, Ten)};
  }

  /** When the collected cards are distinct tens (as they are when they come
      from one deck), `hasMendikot` holds exactly when every ten of the deck
      has been collected. */
  lemma MendikotIffAllTens(t: Team)
    requires Distinct(t.tensCollected)
    requires forall i :: 0 <= i < |t.tensCollected| ==> IsTen(t.tensCollected[i])
    ensures HasMendikot(t) <==> forall c :: IsTen(c) ==> c in t.tensCollected
  {
    var tens := t.tensCollected;
    var got := set c | c in tens;
    var all := set c | c in AllTens;
    AllTensSet();
    DistinctElementCount(tens);
    assert got <= all;
    if HasMendikot(t) {
      assert |all - got| == |all| - |got| == 0;
      assert all == got;
      forall c | IsTen(c)
        ensures c in tens
      {
        assert c in all;
      }
    }
    if forall c :: IsTen(c) ==> c in tens {
      forall c | c in all
        ensures c in got
      {
        assert IsTen(c);
      }
      assert all == got;
      assert |tens| == 4;
    }
  }
}
