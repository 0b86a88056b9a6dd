/** The game engine: team formation, dealing, trump selection and reveal,
    card play and deal completion (game/GameEngine.kt). The engine's one
    mutable `gameState` is threaded through as a value; the shuffled deck
    that `Card.createDeck().shuffled()` would produce is a parameter. */
module Engine {
  import opened Wrappers
  import opened KotlinInt
  import opened Cards
  import opened Players
  import opened Teams
  import opened GameStates

  // ---------------------------------------------------------------------
  // Team formation
  // ---------------------------------------------------------------------

  /** The draw: seat id and card, in the map's insertion order. */
  type Draw = seq<(int, Card)>

  /** `drawCardsForTeamFormation()`: seat `i` draws the card at index `i`
      of the shuffled deck, for seats 0 to 3. */
  function DrawCardsForTeamFormation(deck: seq<Card>): (r: Draw)
    requires |deck| >= 4
    ensures SeatDraw(r) && forall i :: 0 <= i < 4 ==> r[i].1 == deck[i]
    ensures Distinct(deck) ==> DistinctDraws(r)
  {
    seq(4, i requires 0 <= i < 4 => (i, deck[i]))
  }

  /** The sort key of a drawn card: rank value first, suit ordinal second. */
  function DrawKey(c: Card): (k: int)
    ensures 100 * Value(c.rank) <= k < 100 * Value(c.rank) + |AllSuits|
  {
    Value(c.rank) * 100 + SuitOrdinal(c.suit)
  }

  /** Different cards never share a key, so the draw order is strict. */
  lemma DrawKeyInjective(c1: Card, c2: Card)
    ensures DrawKey(c1) == DrawKey(c2) <==> c1 == c2
  {
    if DrawKey(c1) == DrawKey(c2) {
      assert Value(c1.rank) == Value(c2.rank);
      ValueInjective(c1.rank, c2.rank);
      assert SuitOrdinal(c1.suit) == SuitOrdinal(c2.suit);
    }
  }

  /** Keys compare cards by rank value first and by suit ordinal only
      between cards of equal value. */
  lemma DrawKeyOrder(c1: Card, c2: Card)
    ensures DrawKey(c1) > DrawKey(c2) <==>
      || Value(c1.rank) > Value(c2.rank)
      || (Value(c1.rank) == Value(c2.rank) && SuitOrdinal(c1.suit) > SuitOrdinal(c2.suit))
  {
  }

  /** Keys never increase along the sequence. */
  predicate SortedDescending(s: Draw)
  {
    forall i, j :: 0 <= i < j < |s| ==> DrawKey(s[i].1) >= DrawKey(s[j].1)
  }

  /** Inserts `e` after every entry whose key is at least its own, which
      keeps equal keys in their original order. */
  function InsertDescending(e: (int, Card), sorted: Draw): (r: Draw)
    ensures multiset(r) == multiset(sorted) + multiset{e}
    ensures |r| == |sorted| + 1
    ensures r[0] == e || (|sorted| > 0 && r[0] == sorted[0])
  {
    if sorted == [] then [e]
    else if DrawKey(sorted[0].1) >= DrawKey(e.1) then
      assert sorted == [sorted[0]] + sorted[1..];
      [sorted[0]] + InsertDescending(e, sorted[1..])
    else [e] + sorted
  }

  /** Insertion keeps a descending sequence descending. */
  lemma {:induction false} InsertDescendingSorted(e: (int, Card), sorted: Draw)
    requires SortedDescending(sorted)
    ensures SortedDescending(InsertDescending(e, sorted))
    decreases |sorted|
  {
    if sorted != [] && DrawKey(sorted[0].1) >= DrawKey(e.1) {
      var tail := sorted[1..];
      SortedTail(sorted);
      InsertDescendingSorted(e, tail);
      var rest := InsertDescending(e, tail);
      assert DrawKey(sorted[0].1) >= DrawKey(rest[0].1) by {
        if rest[0] != e {
          assert rest[0] == sorted[1];
        }
      }
      SortedCons(sorted[0], rest);
    } else if sorted != [] {
      SortedCons(e, sorted);
    }
  }

  /** A suffix of a descending sequence is descending. */
  lemma SortedTail(s: Draw)
    requires SortedDescending(s) && s != []
    ensures SortedDescending(s[1..])
  {
    var tail := s[1..];
    forall i, j | 0 <= i < j < |tail|
      ensures DrawKey(tail[i].1) >= DrawKey(tail[j].1)
    {
      assert tail[i] == s[i + 1] && tail[j] == s[j + 1];
    }
  }

  /** An entry keyed at least as high as the head of a descending sequence
      extends it at the front. */
  lemma SortedCons(x: (int, Card), s: Draw)
    requires SortedDescending(s) && s != [] && DrawKey(x.1) >= DrawKey(s[0].1)
    ensures SortedDescending([x] + s)
  {
    var r := [x] + s;
    forall i, j | 0 <= i < j < |r|
      ensures DrawKey(r[i].1) >= DrawKey(r[j].1)
    {
      assert r[j] == s[j - 1];
      if i == 0 {
        assert DrawKey(s[0].1) >= DrawKey(s[j - 1].1);
      } else {
        assert r[i] == s[i - 1];
      }
    }
  }

  /** `sortedByDescending { rank.value * 100 + suit.ordinal }`, which is
      stable: an insertion sort over the draw in its iteration order. */
  function SortDescending(entries: Draw): (r: Draw)
    ensures multiset(r) == multiset(entries)
    ensures |r| == |entries|
    ensures SortedDescending(r)
    decreases |entries|
  {
    if entries == [] then []
    else
      var n := |entries|;
      assert entries == entries[..n - 1] + [entries[n - 1]];
      InsertDescendingSorted(entries[n - 1], SortDescending(entries[..n - 1]));
      InsertDescending(entries[n - 1], SortDescending(entries[..n - 1]))
  }

  /** The seat ids of a draw, in its order. */
  function SeatsOf(d: Draw): (ids: seq<int>)
    ensures |ids| == |d| && forall k :: 0 <= k < |d| ==> ids[k] == d[k].0
  {
    seq(|d|, k requires 0 <= k < |d| => d[k].0)
  }

  /** `formTeamsBasedOnCards(draw)`: Team A (id 0) is the two highest
      draws, Team B (id 1) the next two, and the lowest draw becomes the
      dealer. Only the dealer is written back to the state: the stored
      teams keep the fixed 0&2 / 1&3 partnerships. */
  function FormTeamsBasedOnCards(s: State, entries: Draw): (r: (map<int, seq<int>>, State))
    requires |entries| >= 4
    ensures r.0.Keys == {0, 1} && |r.0[0]| == 2 && |r.0[1]| == 2
    ensures r.1 == s.(currentDealer := r.1.currentDealer)
  {
    var sorted := SortDescending(entries);
    var teamA := [sorted[0].0, sorted[1].0];
    var teamB := [sorted[2].0, sorted[3].0];
    (map[0 := teamA, 1 := teamB], s.(currentDealer := sorted[|sorted| - 1].0))
  }

  /** The teams and the dealer read off a ranking of the draw: some
      reordering of the entries with keys never increasing puts Team A
      first, Team B next, and the dealer last. */
  lemma FormTeamsRanksDraw(s: State, entries: Draw)
    requires |entries| >= 4
    ensures var r := FormTeamsBasedOnCards(s, entries);
      exists sorted: Draw ::
        && multiset(sorted) == multiset(entries) && |sorted| == |entries|
        && SortedDescending(sorted)
        && r.0[0] == [sorted[0].0, sorted[1].0]
        && r.0[1] == [sorted[2].0, sorted[3].0]
        && r.1.currentDealer == sorted[|sorted| - 1].0
  {
    var sorted := SortDescending(entries);
    var r := FormTeamsBasedOnCards(s, entries);
    assert r.0[0] == [sorted[0].0, sorted[1].0] && r.0[1] == [sorted[2].0, sorted[3].0];
  }

  /** A sequence with no repeats holds each element once. */
  lemma {:induction false} DistinctCountOne<T>(s: seq<T>, x: T)
    requires forall i, j :: 0 <= i < j < |s| ==> s[i] != s[j]
    ensures multiset(s)[x] <= 1
    decreases |s|
  {
    if s != [] {
      assert s == [s[0]] + s[1..];
      DistinctCountOne(s[1..], x);
      if x == s[0] {
        assert x !in s[1..];
      }
    }
  }

  /** A permutation of a sequence without repeats has no repeats. */
  lemma PermutationDistinct<T>(a: seq<T>, b: seq<T>)
    requires multiset(a) == multiset(b)
    requires forall i, j :: 0 <= i < j < |a| ==> a[i] != a[j]
    ensures forall i, j :: 0 <= i < j < |b| ==> b[i] != b[j]
  {
    forall i, j | 0 <= i < j < |b|
      ensures b[i] != b[j]
    {
      if b[i] == b[j] {
        assert b == b[..j] + [b[j]] + b[j + 1..];
        assert b[i] in b[..j];
        assert multiset(b)[b[i]] >= 2;
        DistinctCountOne(a, b[i]);
      }
    }
  }

  /** A draw keyed by the seats 0..3 in order, as
      `drawCardsForTeamFormation` builds it. */
  predicate SeatDraw(entries: Draw)
  {
    |entries| == 4 && forall i :: 0 <= i < 4 ==> entries[i].0 == i
  }

  /** No two seats drew the same card. */
  predicate DistinctDraws(entries: Draw)
    requires SeatDraw(entries)
  {
    forall i, j :: 0 <= i < j < 4 ==> entries[i].1 != entries[j].1
  }

  /** `sorted` is a ranking of a seat draw: the same entries, keys never
      increasing. `SortDescending` produces one. */
  predicate Ranking(entries: Draw, sorted: Draw)
  {
    && SeatDraw(entries) && |sorted| == 4
    && multiset(sorted) == multiset(entries)
    && SortedDescending(sorted)
  }

  /** The sort ranks a seat draw. */
  lemma SortRanks(entries: Draw)
    requires SeatDraw(entries)
    ensures Ranking(entries, SortDescending(entries))
  {
  }

  /** Every position of a ranking holds some seat's own draw. */
  lemma RankingEntries(entries: Draw, sorted: Draw)
    requires Ranking(entries, sorted)
    ensures forall k :: 0 <= k < 4 ==> 0 <= sorted[k].0 < 4 && sorted[k] == entries[sorted[k].0]
  {
    forall k | 0 <= k < 4
      ensures 0 <= sorted[k].0 < 4 && sorted[k] == entries[sorted[k].0]
    {
      assert sorted[k] in multiset(entries);
    }
  }

  /** Every seat appears in a ranking. */
  lemma RankingCovers(entries: Draw, sorted: Draw)
    requires Ranking(entries, sorted)
    ensures forall q :: 0 <= q < 4 ==> q in SeatsOf(sorted)
  {
    var ids := SeatsOf(sorted);
    forall q | 0 <= q < 4
      ensures q in ids
    {
      assert entries[q] in multiset(sorted);
      var k :| 0 <= k < |sorted| && sorted[k] == entries[q];
      assert ids[k] == q;
    }
  }

  /** No seat appears twice in a ranking. */
  lemma RankingOnce(entries: Draw, sorted: Draw)
    requires Ranking(entries, sorted)
    ensures var ids := SeatsOf(sorted);
      forall i, j :: 0 <= i < j < |ids| ==> ids[i] != ids[j]
  {
    var ids := SeatsOf(sorted);
    assert forall i, j :: 0 <= i < j < 4 ==> entries[i] != entries[j];
    PermutationDistinct(entries, sorted);
    RankingEntries(entries, sorted);
    forall i, j | 0 <= i < j < |ids|
      ensures ids[i] != ids[j]
    {
      assert sorted[i] != sorted[j];
      assert sorted[i] == entries[ids[i]] && sorted[j] == entries[ids[j]];
    }
  }

  /** With four distinct cards the ranked keys strictly decrease. */
  lemma RankingStrict(entries: Draw, sorted: Draw)
    requires Ranking(entries, sorted) && DistinctDraws(entries)
    ensures forall i, j :: 0 <= i < j < 4 ==> DrawKey(sorted[i].1) > DrawKey(sorted[j].1)
  {
    RankingEntries(entries, sorted);
    RankingOnce(entries, sorted);
    forall i, j | 0 <= i < j < 4
      ensures DrawKey(sorted[i].1) > DrawKey(sorted[j].1)
    {
      assert SeatsOf(sorted)[i] != SeatsOf(sorted)[j];
      assert sorted[i].1 != sorted[j].1;
      DrawKeyInjective(sorted[i].1, sorted[j].1);
    }
  }

  /** The two teams split the four seats between them, and the dealer
      belongs to Team B. */
  lemma FormTeamsPartition(s: State, entries: Draw)
    requires SeatDraw(entries)
    ensures var r := FormTeamsBasedOnCards(s, entries);
      && (forall q :: 0 <= q < 4 ==> q in r.0[0] + r.0[1])
      && (forall i, j :: 0 <= i < j < 4 ==> (r.0[0] + r.0[1])[i] != (r.0[0] + r.0[1])[j])
      && 0 <= r.1.currentDealer < 4
      && r.1.currentDealer in r.0[1]
  {
    var sorted := SortDescending(entries);
    SortRanks(entries);
    RankingEntries(entries, sorted);
    RankingCovers(entries, sorted);
    RankingOnce(entries, sorted);
    var r := FormTeamsBasedOnCards(s, entries);
    var ids := SeatsOf(sorted);
    assert r.0[0] + r.0[1] == ids;
    assert r.1.currentDealer == ids[3];
  }

  /** When no two seats drew the same card, every member of Team A drew
      higher than every member of Team B. */
  lemma FormTeamsFromDraw(s: State, entries: Draw)
    requires SeatDraw(entries) && DistinctDraws(entries)
    ensures var r := FormTeamsBasedOnCards(s, entries);
      forall i, j :: 0 <= i < 2 && 0 <= j < 2 ==>
        && 0 <= r.0[0][i] < 4 && 0 <= r.0[1][j] < 4
        && DrawKey(entries[r.0[0][i]].1) > DrawKey(entries[r.0[1][j]].1)
  {
    var sorted := SortDescending(entries);
    SortRanks(entries);
    RankingEntries(entries, sorted);
    RankingStrict(entries, sorted);
    var r := FormTeamsBasedOnCards(s, entries);
    var a, b := r.0[0], r.0[1];
    assert a == [sorted[0].0, sorted[1].0] && b == [sorted[2].0, sorted[3].0];
    forall i, j | 0 <= i < 2 && 0 <= j < 2
      ensures 0 <= a[i] < 4 && 0 <= b[j] < 4 && DrawKey(entries[a[i]].1) > DrawKey(entries[b[j]].1)
    {
      assert entries[a[i]] == sorted[i] && entries[b[j]] == sorted[j + 2];
    }
  }

  /** The dealer is the seat with the lowest draw. */
  lemma FormTeamsDealerLowest(s: State, entries: Draw)
    requires SeatDraw(entries)
    ensures var r := FormTeamsBasedOnCards(s, entries);
      && 0 <= r.1.currentDealer < 4
      && forall q :: 0 <= q < 4 ==> DrawKey(entries[r.1.currentDealer].1) <= DrawKey(entries[q].1)
  {
    var sorted := SortDescending(entries);
    SortRanks(entries);
    RankingEntries(entries, sorted);
    RankingCovers(entries, sorted);
    var ids := SeatsOf(sorted);
    var r := FormTeamsBasedOnCards(s, entries);
    assert r.1.currentDealer == ids[3];
    forall q | 0 <= q < 4
      ensures DrawKey(entries[r.1.currentDealer].1) <= DrawKey(entries[q].1)
    {
      assert q in ids;
      var k :| 0 <= k < |ids| && ids[k] == q;
      assert sorted[k] == entries[q];
    }
  }

  // ---------------------------------------------------------------------
  // Dealing
  // ---------------------------------------------------------------------

  /** `n` seat ids from `id` on, stepping anticlockwise with Kotlin's `%`. */
  function OrderFrom(id: int, n: nat): (order: seq<int>)
    ensures |order| == n
    ensures 0 <= id < 4 ==> forall k :: 0 <= k < n ==> order[k] == (id + k) % 4
    decreases n
  {
    if n == 0 then []
    else
      var rest := OrderFrom(Rem(id + 1, 4), n - 1);
      [id] + rest
  }

  /** `generatePlayerOrder(dealerId)`: the four seats, starting with the
      one after the dealer. */
  function GeneratePlayerOrder(dealerId: int): (order: seq<int>)
    ensures |order| == 4
  {
    OrderFrom(Rem(dealerId + 1, 4), 4)
  }

  /** Four steps from a seat visit the four seats in turn. */
  lemma OrderFromSeat(id: int)
    requires 0 <= id < 4
    ensures OrderFrom(id, 4) == [id, (id + 1) % 4, (id + 2) % 4, (id + 3) % 4]
  {
    var o := OrderFrom(id, 4);
    assert o[0] == id && o[1] == (id + 1) % 4 && o[2] == (id + 2) % 4 && o[3] == (id + 3) % 4;
  }

  /** For a seated dealer the order is the seat after the dealer, the two
      after that, then the dealer. */
  lemma PlayerOrderAfterDealer(d: int)
    requires 0 <= d < 4
    ensures GeneratePlayerOrder(d) == [(d + 1) % 4, (d + 2) % 4, (d + 3) % 4, d]
  {
    var n := Rem(d + 1, 4);
    OrderFromSeat(n);
    SeatAfter(d);
  }

  /** Counting on round the table from the seat after `d`. */
  lemma SeatAfter(d: int)
    requires 0 <= d < 4
    ensures var n := (d + 1) % 4;
      (n + 1) % 4 == (d + 2) % 4 && (n + 2) % 4 == (d + 3) % 4 && (n + 3) % 4 == d
  {
    if d == 0 {
    } else if d == 1 {
    } else if d == 2 {
    } else {
    }
  }

  /** Before any dealer is chosen (-1) the order is seats 0, 1, 2, 3. */
  lemma PlayerOrderBeforeFormation()
    ensures GeneratePlayerOrder(-1) == [0, 1, 2, 3]
  {
    assert Rem(0, 4) == 0;
    OrderFromSeat(0);
  }

  /** For a seated or unset dealer the dealing order is a permutation of
      the four seats. */
  lemma PlayerOrderIsPermutation(d: int)
    requires -1 <= d < 4
    ensures SeatOrder(GeneratePlayerOrder(d))
    ensures forall q :: 0 <= q < 4 ==> q in GeneratePlayerOrder(d)
  {
    var first := Rem(d + 1, 4);
    assert 0 <= first < 4;
    OrderFromSeat(first);
    RotationIsSeatOrder(GeneratePlayerOrder(d), first);
  }

  /** The order starting at any seat names every seat once. */
  lemma RotationIsSeatOrder(o: seq<int>, a: int)
    requires 0 <= a < 4 && o == [a, (a + 1) % 4, (a + 2) % 4, (a + 3) % 4]
    ensures SeatOrder(o)
    ensures forall q :: 0 <= q < 4 ==> q in o
  {
    if a == 0 {
      assert o == [0, 1, 2, 3];
    } else if a == 1 {
      assert o == [1, 2, 3, 0];
    } else if a == 2 {
      assert o == [2, 3, 0, 1];
    } else {
      assert o == [3, 0, 1, 2];
    }
  }


  /** `getPlayer(id)?.receiveCards(listOf(card))` on a list of players. */
  function GiveCard(ps: seq<Player>, id: int, card: Card): (r: seq<Player>)
    ensures |r| == |ps|
  {
    match PlayerIndex(ps, id)
    case None => ps
    case Some(i) => ps[i := ReceiveCards(ps[i], [card])]
  }

  /** The inner loop of `dealRound`: the first `pos` seats of the order
      each receive the next card. */
  function DealSweep(ps: seq<Player>, cards: seq<Card>, order: seq<int>, pos: nat): (r: seq<Player>)
    requires pos <= |order| && pos <= |cards|
    ensures |r| == |ps|
  {
    if pos == 0 then ps
    else GiveCard(DealSweep(ps, cards, order, pos - 1), order[pos - 1], cards[pos - 1])
  }

  /** `dealRound(cards, order, m)`: `m` sweeps round the table, one card
      per seat per sweep, taking the cards in order. */
  function DealRound(ps: seq<Player>, cards: seq<Card>, order: seq<int>, m: nat): (r: seq<Player>)
    requires |order| == 4 && 4 * m <= |cards|
    ensures |r| == |ps|
    decreases m
  {
    if m == 0 then ps
    else
      DealRound(DealSweep(ps, cards, order, 4), cards[4..], order, m - 1)
  }

  /** `dealCards()`: every hand is cleared, then the deck is dealt 5, 4 and
      4 cards per seat, round robin in dealing order. */
  function DealCards(s: State, deck: seq<Card>): (r: State)
    requires |deck| >= 52
    ensures r == s.(players := r.players) && |r.players| == |s.players|
  {
    var cleared := seq(|s.players|, i requires 0 <= i < |s.players| => ClearHand(s.players[i]));
    s.(players := DealFiveFourFour(cleared, deck, GeneratePlayerOrder(s.currentDealer)))
  }

  /** The three rounds of `dealCards`: five cards per seat from the first
      twenty, then four from the next sixteen, then four from the last
      sixteen. */
  function DealFiveFourFour(ps: seq<Player>, deck: seq<Card>, order: seq<int>): (r: seq<Player>)
    requires |deck| >= 52 && |order| == 4
    ensures |r| == |ps|
  {
    var first := DealRound(ps, deck[..20], order, 5);
    var second := DealRound(first, deck[20..36], order, 4);
    DealRound(second, deck[36..52], order, 4)
  }

  /** Seat `i` of the list has id `i`, for the four seats. */
  predicate Seated(ps: seq<Player>)
  {
    |ps| == 4 && forall i :: 0 <= i < 4 ==> ps[i].id == i
  }

  /** An order that names each of the four seats once. */
  predicate SeatOrder(order: seq<int>)
  {
    && |order| == 4
    && (forall k :: 0 <= k < 4 ==> 0 <= order[k] < 4)
    && (forall k, l :: 0 <= k < l < 4 ==> order[k] != order[l])
  }

  /** `m` cards for dealing position `k`: indices `k`, `k + 4`, `k + 8`, ... */
  function EveryFourth(cards: seq<Card>, k: nat, m: nat): (r: seq<Card>)
    requires k < 4 && 4 * m <= |cards|
    ensures |r| == m && forall j :: 0 <= j < m ==> r[j] == cards[4 * j + k]
  {
    seq(m, j requires 0 <= j < m => cards[4 * j + k])
  }

  /** A position's share is its card of the first sweep, then its share
      of the remaining sweeps. */
  lemma EveryFourthCons(cards: seq<Card>, k: nat, m: nat)
    requires k < 4 && 0 < m && 4 * m <= |cards|
    ensures EveryFourth(cards, k, m) == [cards[k]] + EveryFourth(cards[4..], k, m - 1)
  {
  }

  /** Only the hand of the seat named changes; it gains the card at its end. */
  lemma GiveCardSeated(ps: seq<Player>, id: int, card: Card)
    requires Seated(ps) && 0 <= id < 4
    ensures Seated(GiveCard(ps, id, card))
    ensures GiveCard(ps, id, card)[id] == ps[id].(hand := ps[id].hand + [card])
    ensures forall q :: 0 <= q < 4 && q != id ==> GiveCard(ps, id, card)[q] == ps[q]
  {
    assert ps[id].id == id;
    assert PlayerIndex(ps, id) == Some(id);
  }

  /** A sweep keeps the seating and every field but the hands. */
  lemma {:induction false} DealSweepFrame(ps: seq<Player>, cards: seq<Card>, order: seq<int>, pos: nat)
    requires Seated(ps) && SeatOrder(order)
    requires pos <= 4 && pos <= |cards|
    ensures var r := DealSweep(ps, cards, order, pos);
      && Seated(r)
      && forall q :: 0 <= q < 4 ==> r[q] == ps[q].(hand := r[q].hand)
    decreases pos
  {
    if pos > 0 {
      DealSweepFrame(ps, cards, order, pos - 1);
      GiveCardSeated(DealSweep(ps, cards, order, pos - 1), order[pos - 1], cards[pos - 1]);
    }
  }

  /** A sweep gives the seat at dealing position `k` the card at `k` when
      `k < pos`, and nothing otherwise. */
  lemma {:induction false} DealSweepAt(ps: seq<Player>, cards: seq<Card>, order: seq<int>, pos: nat, k: nat)
    requires Seated(ps) && SeatOrder(order)
    requires pos <= 4 && pos <= |cards| && k < 4
    ensures DealSweep(ps, cards, order, pos)[order[k]].hand
      == ps[order[k]].hand + (if k < pos then [cards[k]] else [])
    decreases pos
  {
    if pos > 0 {
      DealSweepFrame(ps, cards, order, pos - 1);
      DealSweepAt(ps, cards, order, pos - 1, k);
      GiveCardSeated(DealSweep(ps, cards, order, pos - 1), order[pos - 1], cards[pos - 1]);
      if k != pos - 1 {
        assert order[k] != order[pos - 1];
      }
    }
  }

  /** Rounds keep the seating and every field but the hands. */
  lemma {:induction false} DealRoundFrame(ps: seq<Player>, cards: seq<Card>, order: seq<int>, m: nat)
    requires Seated(ps) && SeatOrder(order)
    requires 4 * m <= |cards|
    ensures var r := DealRound(ps, cards, order, m);
      && Seated(r)
      && forall q :: 0 <= q < 4 ==> r[q] == ps[q].(hand := r[q].hand)
    decreases m
  {
    if m > 0 {
      DealSweepFrame(ps, cards, order, 4);
      DealRoundFrame(DealSweep(ps, cards, order, 4), cards[4..], order, m - 1);
    }
  }

  /** `m` sweeps give the seat at dealing position `k` the cards at `k`,
      `k + 4`, ..., `k + 4(m - 1)`, appended in that order. */
  lemma {:induction false} DealRoundAt(ps: seq<Player>, cards: seq<Card>, order: seq<int>, m: nat, k: nat)
    requires Seated(ps) && SeatOrder(order)
    requires 4 * m <= |cards| && k < 4
    ensures DealRound(ps, cards, order, m)[order[k]].hand == ps[order[k]].hand + EveryFourth(cards, k, m)
    decreases m
  {
    if m > 0 {
      var swept := DealSweep(ps, cards, order, 4);
      DealSweepFrame(ps, cards, order, 4);
      DealSweepAt(ps, cards, order, 4, k);
      DealRoundAt(swept, cards[4..], order, m - 1, k);
      EveryFourthCons(cards, k, m);
      assert DealRound(ps, cards, order, m)[order[k]].hand
        == (ps[order[k]].hand + [cards[k]]) + EveryFourth(cards[4..], k, m - 1);
    }
  }

  /** The cards the seat at dealing position `k` receives: five from the
      first twenty, four from the next sixteen, four from the last sixteen. */
  function DealtHand(deck: seq<Card>, k: nat): (h: seq<Card>)
    requires k < 4 && |deck| >= 52
    ensures |h| == 13
    ensures forall j :: 0 <= j < 5 ==> h[j] == deck[k + 4 * j]
    ensures forall j :: 5 <= j < 9 ==> h[j] == deck[20 + k + 4 * (j - 5)]
    ensures forall j :: 9 <= j < 13 ==> h[j] == deck[36 + k + 4 * (j - 9)]
  {
    EveryFourth(deck[..20], k, 5) + EveryFourth(deck[20..36], k, 4) + EveryFourth(deck[36..52], k, 4)
  }

  /** The three rounds keep the seating and every field but the hands. */
  lemma DealFiveFourFourFrame(ps: seq<Player>, deck: seq<Card>, order: seq<int>)
    requires Seated(ps) && SeatOrder(order) && |deck| >= 52
    ensures var r := DealFiveFourFour(ps, deck, order);
      && Seated(r)
      && forall q :: 0 <= q < 4 ==> r[q] == ps[q].(hand := r[q].hand)
  {
    var first := DealRound(ps, deck[..20], order, 5);
    var second := DealRound(first, deck[20..36], order, 4);
    DealRoundFrame(ps, deck[..20], order, 5);
    DealRoundFrame(first, deck[20..36], order, 4);
    DealRoundFrame(second, deck[36..52], order, 4);
  }

  /** The three rounds append `DealtHand(deck, k)` to the hand at dealing
      position `k`. */
  lemma DealFiveFourFourAt(ps: seq<Player>, deck: seq<Card>, order: seq<int>, k: nat)
    requires Seated(ps) && SeatOrder(order) && |deck| >= 52 && k < 4
    ensures DealFiveFourFour(ps, deck, order)[order[k]].hand == ps[order[k]].hand + DealtHand(deck, k)
  {
    var first := DealRound(ps, deck[..20], order, 5);
    var second := DealRound(first, deck[20..36], order, 4);
    DealRoundFrame(ps, deck[..20], order, 5);
    DealRoundFrame(first, deck[20..36], order, 4);
    DealRoundAt(ps, deck[..20], order, 5, k);
    DealRoundAt(first, deck[20..36], order, 4, k);
    DealRoundAt(second, deck[36..52], order, 4, k);
    var a, b, c := EveryFourth(deck[..20], k, 5), EveryFourth(deck[20..36], k, 4), EveryFourth(deck[36..52], k, 4);
    assert DealFiveFourFour(ps, deck, order)[order[k]].hand == ((ps[order[k]].hand + a) + b) + c;
  }

  /** After `dealCards` the seat at dealing position `k` holds exactly
      `DealtHand(deck, k)`, and nothing but the hands changes. */
  lemma DealCardsHands(s: State, deck: seq<Card>)
    requires WellFormed(s) && |deck| >= 52
    ensures var r := DealCards(s, deck);
      var order := GeneratePlayerOrder(s.currentDealer);
      && WellFormed(r)
      && forall k :: 0 <= k < 4 ==> r.players[order[k]].hand == DealtHand(deck, k)
  {
    var order := GeneratePlayerOrder(s.currentDealer);
    PlayerOrderIsPermutation(s.currentDealer);
    var cleared := seq(|s.players|, i requires 0 <= i < |s.players| => ClearHand(s.players[i]));
    assert Seated(cleared);
    DealFiveFourFourFrame(cleared, deck, order);
    forall k | 0 <= k < 4
      ensures DealFiveFourFour(cleared, deck, order)[order[k]].hand == DealtHand(deck, k)
    {
      DealFiveFourFourAt(cleared, deck, order, k);
    }
    var r := DealCards(s, deck);
    assert r.players == DealFiveFourFour(cleared, deck, order);
    forall q | 0 <= q < 4
      ensures r.players[q].teamId == s.players[q].teamId
    {
      assert r.players[q] == cleared[q].(hand := r.players[q].hand);
    }
  }

  /** Every seat of a freshly dealt table holds thirteen cards. */
  lemma DealCardsThirteen(s: State, deck: seq<Card>)
    requires WellFormed(s) && |deck| >= 52
    ensures forall q :: 0 <= q < 4 ==> |DealCards(s, deck).players[q].hand| == 13
  {
    var order := GeneratePlayerOrder(s.currentDealer);
    PlayerOrderIsPermutation(s.currentDealer);
    DealCardsHands(s, deck);
    forall q | 0 <= q < 4
      ensures |DealCards(s, deck).players[q].hand| == 13
    {
      assert q in order;
      var k :| 0 <= k < |order| && order[k] == q;
      assert DealCards(s, deck).players[q].hand == DealtHand(deck, k);
    }
  }

  // ---------------------------------------------------------------------
  // Trump
  // ---------------------------------------------------------------------

  /** `selectTrump(playerId, card)`: the card becomes the hidden trump
      indicator, one copy of it leaves the selector's hand (if held), and
      the seat after the dealer is to lead. */
  function SelectTrump(s: State, playerId: int, card: Card): (r: State)
    ensures r.trumpCard == Some(card) && r.trumpSuit == Some(card.suit) && !r.trumpRevealed
    ensures r.currentTurn == Rem(s.currentDealer + 1, 4)
    ensures |r.players| == |s.players|
    ensures r == s.(players := r.players, trumpCard := r.trumpCard, trumpSuit := r.trumpSuit,
                    trumpRevealed := false, currentTurn := r.currentTurn)
  {
    var s1 := s.(trumpCard := Some(card), trumpSuit := Some(card.suit), trumpRevealed := false);
    var s2 :=
      match PlayerIndex(s1.players, playerId)
      case None => s1
      case Some(i) => s1.(players := s1.players[i := Players.PlayCard(s1.players[i], card).1]);
    s2.(currentTurn := Rem(s2.currentDealer + 1, 4))
  }

  /** In a well-formed state the selector's hand loses one copy of the card
      (if held), every other seat is untouched, and the state stays
      well-formed. */
  lemma SelectTrumpSeated(s: State, playerId: int, card: Card)
    requires WellFormed(s)
    ensures var r := SelectTrump(s, playerId, card);
      && WellFormed(r)
      && (0 <= playerId < 4 ==> r.players[playerId] == Players.PlayCard(s.players[playerId], card).1)
      && forall q :: 0 <= q < 4 && q != playerId ==> r.players[q] == s.players[q]
  {
    WellFormedLookups(s, playerId);
  }

  /** `revealTrump()`: the trump card goes back into the hand of the seat
      after the dealer (whoever chose it) and trump is marked revealed. */
  function RevealTrump(s: State): (r: State)
    ensures r.trumpRevealed
    ensures |r.players| == |s.players|
    ensures r == s.(players := r.players, trumpRevealed := true)
  {
    var owner := Rem(s.currentDealer + 1, 4);
    var s1 :=
      match (PlayerIndex(s.players, owner), s.trumpCard)
      case (Some(i), Some(c)) => s.(players := s.players[i := ReceiveCards(s.players[i], [c])])
      case _ => s;
    s1.(trumpRevealed := true)
  }

  /** In a well-formed state the trump card, if any, is appended to the hand
      of the seat after the dealer and nobody else's hand changes. */
  lemma RevealTrumpSeated(s: State)
    requires WellFormed(s)
    ensures var r := RevealTrump(s);
      var owner := Rem(s.currentDealer + 1, 4);
      && WellFormed(r)
      && 0 <= owner < 4
      && r.players[owner].hand == s.players[owner].hand + (if s.trumpCard.Some? then [s.trumpCard.value] else [])
      && r.players[owner] == s.players[owner].(hand := r.players[owner].hand)
      && forall q :: 0 <= q < 4 && q != owner ==> r.players[q] == s.players[q]
  {
    WellFormedLookups(s, Rem(s.currentDealer + 1, 4));
  }

  // ---------------------------------------------------------------------
  // Card play
  // ---------------------------------------------------------------------

  /** The checks `playCard` makes before anything changes: it is the
      player's turn, the player is seated, and the card is playable. */
  predicate LegalPlay(s: State, playerId: int, card: Card)
  {
    && playerId == s.currentTurn
    && GetPlayer(s, playerId).Some?
    && card in PlayableCards(GetPlayer(s, playerId).value, s.leadSuit, s.trumpSuit)
  }

  /** The player cannot follow the suit led while trump is still hidden:
      the play will reveal trump first. */
  predicate RevealsTrump(s: State, playerId: int)
  {
    && s.leadSuit.Some?
    && GetPlayer(s, playerId).Some?
    && !HasSuit(GetPlayer(s, playerId).value.hand, s.leadSuit.value)
    && !s.trumpRevealed
  }

  /** `playCard(playerId, card)`: rejected with no change unless legal.
      A legal play may first reveal trump (when the player cannot follow
      the lead and trump is hidden), then commits the card. */
  function PlayCard(s: State, playerId: int, card: Card): (r: (bool, State))
    ensures !LegalPlay(s, playerId, card) ==> r == (false, s)
  {
    if playerId != s.currentTurn then (false, s)
    else
      match PlayerIndex(s.players, playerId)
      case None => (false, s)
      case Some(i) =>
        var player := s.players[i];
        if card !in PlayableCards(player, s.leadSuit, s.trumpSuit) then (false, s)
        else
          var s1 :=
            if s.leadSuit.Some? && !HasSuit(player.hand, s.leadSuit.value) && !s.trumpRevealed
            then RevealTrump(s) else s;
          CommitPlay(s1, i, playerId, card)
  }

  /** The tail of `playCard`: the card leaves the hand of the player at
      index `i` and joins the trick; the fourth card resolves the trick,
      otherwise the next seat is to play. A card not in the hand is
      rejected. */
  function CommitPlay(s: State, i: nat, playerId: int, card: Card): (r: (bool, State))
    requires i < |s.players|
    ensures card !in s.players[i].hand ==> r == (false, s)
    ensures card in s.players[i].hand ==> r.0
    ensures r.1.trumpRevealed == s.trumpRevealed && r.1.trumpCard == s.trumpCard && r.1.trumpSuit == s.trumpSuit
  {
    var played := Players.PlayCard(s.players[i], card);
    match played.0
    case None => (false, s)
    case Some(c) =>
      var s2 := AddCardToTrick(s.(players := s.players[i := played.1]), c, playerId);
      if |s2.currentTrick| == 4 then (true, CompleteTrick(s2))
      else (true, s2.(currentTurn := Rem(playerId + 1, 4)))
  }

  /** Revealing trump only ever adds to hands: every held card stays held. */
  lemma RevealKeepsHands(s: State, i: nat, c: Card)
    requires i < |s.players| && c in s.players[i].hand
    ensures c in RevealTrump(s).players[i].hand
  {
    var r := RevealTrump(s);
    if r.players[i] != s.players[i] {
      var j := PlayerIndex(s.players, Rem(s.currentDealer + 1, 4)).value;
      assert j == i;
      assert r.players[i].hand == s.players[i].hand + [s.trumpCard.value];
    }
  }

  /** `playCard` returns true exactly for a legal play. */
  lemma PlayCardAccepts(s: State, playerId: int, card: Card)
    ensures PlayCard(s, playerId, card).0 <==> LegalPlay(s, playerId, card)
  {
    if LegalPlay(s, playerId, card) {
      var i := PlayerIndex(s.players, playerId).value;
      assert multiset(PlayableCards(s.players[i], s.leadSuit, s.trumpSuit)) <= multiset(s.players[i].hand);
      assert card in s.players[i].hand;
      RevealKeepsHands(s, i, card);
    }
  }

  /** Trump is revealed at most once: once revealed it stays revealed, and a
      legal play by a player who cannot follow a hidden-trump lead reveals
      it. */
  lemma PlayCardReveal(s: State, playerId: int, card: Card)
    ensures s.trumpRevealed ==> PlayCard(s, playerId, card).1.trumpRevealed
    ensures LegalPlay(s, playerId, card) && RevealsTrump(s, playerId) ==> PlayCard(s, playerId, card).1.trumpRevealed
  {
    if LegalPlay(s, playerId, card) {
      var i := PlayerIndex(s.players, playerId).value;
      var player := s.players[i];
      var s1 :=
        if s.leadSuit.Some? && !HasSuit(player.hand, s.leadSuit.value) && !s.trumpRevealed
        then RevealTrump(s) else s;
      assert PlayCard(s, playerId, card) == CommitPlay(s1, i, playerId, card);
    }
  }

  /** The state `playCard` commits the card in: trump revealed first when
      the play reveals it, otherwise unchanged. */
  function BeforeCommit(s: State, playerId: int): State
  {
    if RevealsTrump(s, playerId) then RevealTrump(s) else s
  }

  /** A legal play is the commit of a held card, after the reveal when there
      is one; the reveal changes only hands and `trumpRevealed`. */
  lemma PlayCardCommits(s: State, playerId: int, card: Card)
    requires WellFormed(s) && LegalPlay(s, playerId, card)
    ensures var s1 := BeforeCommit(s, playerId);
      && 0 <= playerId < 4 && WellFormed(s1)
      && card in s1.players[playerId].hand
      && s1 == s.(players := s1.players, trumpRevealed := s1.trumpRevealed)
      && PlayCard(s, playerId, card) == CommitPlay(s1, playerId, playerId, card)
  {
    WellFormedLookups(s, playerId);
    var player := s.players[playerId];
    assert multiset(PlayableCards(player, s.leadSuit, s.trumpSuit)) <= multiset(player.hand);
    assert card in player.hand;
    RevealKeepsHands(s, playerId, card);
    RevealTrumpSeated(s);
  }

  /** Committing a held card takes one copy of it out of that hand and
      leaves every other hand alone. */
  lemma CommitHands(s: State, i: nat, playerId: int, card: Card)
    requires i < |s.players| && card in s.players[i].hand
    ensures var r := CommitPlay(s, i, playerId, card).1;
      && |r.players| == |s.players|
      && r.players[i] == s.players[i].(hand := r.players[i].hand)
      && multiset(r.players[i].hand) == multiset(s.players[i].hand) - multiset{card}
      && |r.players[i].hand| == |s.players[i].hand| - 1
      && forall q :: 0 <= q < |s.players| && q != i ==> r.players[q] == s.players[q]
  {
  }

  /** Below four cards the play joins the trick, the first card sets the
      lead suit, and the turn passes to the next seat; nothing else but the
      hand changes. */
  lemma CommitOpen(s: State, i: nat, playerId: int, card: Card)
    requires i < |s.players| && card in s.players[i].hand && |s.currentTrick| != 3
    ensures var r := CommitPlay(s, i, playerId, card).1;
      && r.currentTrick == s.currentTrick + [CardPlay(card, playerId)]
      && r.leadSuit == (if s.currentTrick == [] then Some(card.suit) else s.leadSuit)
      && r.currentTurn == Rem(playerId + 1, 4)
      && r == s.(players := r.players, currentTrick := r.currentTrick, leadSuit := r.leadSuit, currentTurn := r.currentTurn)
  {
  }

  /** The fourth card joins the trick and the engine's `completeTrick`
      resolves it; the hands are those of the commit. */
  lemma CommitCloses(s: State, playerId: int, card: Card)
    requires WellFormed(s) && 0 <= playerId < 4 && card in s.players[playerId].hand
    requires |s.currentTrick| == 3
    ensures var r := CommitPlay(s, playerId, playerId, card).1;
      var s2 := s.(players := r.players, currentTrick := s.currentTrick + [CardPlay(card, playerId)],
                   leadSuit := s.leadSuit);
      && WellFormed(s2)
      && r == CompleteTrick(s2)
  {
    var played := Players.PlayCard(s.players[playerId], card);
    var s0 := s.(players := s.players[playerId := played.1]);
    var s2 := AddCardToTrick(s0, card, playerId);
    assert WellFormed(s2);
    var r := CommitPlay(s, playerId, playerId, card).1;
    assert r == CompleteTrick(s2);
    assert r.players == s2.players;
  }

  /** The engine's `completeTrick()`: the trick is resolved; if seat 0's hand
      is then empty the deal is completed, otherwise the winner leads. */
  function CompleteTrick(s: State): (r: State)
    ensures r == s.(teams := r.teams, currentTrick := r.currentTrick, leadSuit := r.leadSuit,
                    currentTurn := r.currentTurn, teamScores := r.teamScores, currentDealer := r.currentDealer)
  {
    var resolved := GameStates.CompleteTrick(s);
    match resolved.0
    case None => resolved.1
    case Some(winnerId) =>
      if SeatZeroEmpty(resolved.1) then CompleteDeal(resolved.1)
      else resolved.1.(currentTurn := winnerId)
  }

  /** A full trick is resolved: the winner's team collects it, the other
      team is untouched, the trick is cleared and no hand changes. If seat
      0 still holds cards the winner leads next; otherwise the deal is
      completed and the turn is not touched. */
  lemma CompleteTrickOutcome(s: State)
    requires WellFormed(s) && |s.currentTrick| > 0
    requires forall j :: 0 <= j < |s.currentTrick| ==> 0 <= s.currentTrick[j].playerId < 4
    ensures var r := CompleteTrick(s);
      exists w :: IsTrickWinner(s.currentTrick, w, s.trumpRevealed, s.trumpSuit)
        && var winner := s.currentTrick[w].playerId;
        && r.teams[winner % 2] == CollectTrick(s.teams[winner % 2], CardsOf(s.currentTrick))
        && r.teams[1 - winner % 2] == s.teams[1 - winner % 2]
        && r.currentTrick == [] && r.leadSuit.None? && r.players == s.players
        && (|s.players[0].hand| != 0 ==>
              r.currentTurn == winner && r.teamScores == s.teamScores && r.currentDealer == s.currentDealer)
        && (|s.players[0].hand| == 0 ==>
              r.currentTurn == s.currentTurn && r == CompleteDeal(r.(teamScores := s.teamScores, currentDealer := s.currentDealer)))
  {
    var w := WinnerIndex(s.currentTrick, s.trumpRevealed, s.trumpSuit);
    var winner := s.currentTrick[w].playerId;
    WellFormedLookups(s, winner);
    WellFormedLookups(s, 0);
    assert DetermineTrickWinner(s) == Some(s.players[winner]);
    assert TeamIndexForPlayer(s, winner) == Some(winner % 2);
    var resolved := GameStates.CompleteTrick(s);
    assert resolved.0 == Some(winner);
    var r := CompleteTrick(s);
    if |s.players[0].hand| == 0 {
      assert SeatZeroEmpty(resolved.1);
      assert r == CompleteDeal(resolved.1);
      assert resolved.1 == r.(teamScores := s.teamScores, currentDealer := s.currentDealer);
    } else {
      assert !SeatZeroEmpty(resolved.1);
    }
  }

  /** `getPlayer(0)?.hand?.isEmpty() == true`: the only test for the end
      of a deal. */
  predicate SeatZeroEmpty(s: State)
    ensures WellFormed(s) ==> (SeatZeroEmpty(s) <==> |s.players[0].hand| == 0)
  {
    GetPlayer(s, 0).Some? && |GetPlayer(s, 0).value.hand| == 0
  }

  // ---------------------------------------------------------------------
  // Deal completion
  // ---------------------------------------------------------------------

  /** The `when` of `completeDeal`, in its order: Mendikot or whitewash for
      A, then for B; three tens for A, then B; a 2-2 split of tens goes to A
      with at least seven tricks, else B; then more tens; else team 1. */
  function DealWinner(a: Team, b: Team): (w: int)
    ensures w == 0 || w == 1
    ensures HasMendikot(a) || HasWhitewash(a) ==> w == 0
    ensures HasMendikot(b) || HasWhitewash(b) ==> w == 1 || HasMendikot(a) || HasWhitewash(a)
  {
    if HasMendikot(a) || HasWhitewash(a) then 0
    else if HasMendikot(b) || HasWhitewash(b) then 1
    else if |a.tensCollected| == 3 then 0
    else if |b.tensCollected| == 3 then 1
    else if |a.tensCollected| == 2 && |b.tensCollected| == 2 then (if a.tricksWon >= 7 then 0 else 1)
    else if |a.tensCollected| > |b.tensCollected| then 0
    else 1
  }

  /** At the end of a real deal (the four tens and thirteen tricks split
      between the teams, and a team without tricks holds no tens) the rule
      chain amounts to: more tens wins, and a 2-2 split goes to the team
      with the majority of tricks. */
  lemma DealWinnerByMajority(a: Team, b: Team)
    requires |a.tensCollected| + |b.tensCollected| == 4
    requires a.tricksWon + b.tricksWon == 13 && a.tricksWon >= 0 && b.tricksWon >= 0
    requires a.tricksWon == 0 ==> |a.tensCollected| == 0
    requires b.tricksWon == 0 ==> |b.tensCollected| == 0
    ensures DealWinner(a, b) == 0 <==>
      |a.tensCollected| > |b.tensCollected| || (|a.tensCollected| == |b.tensCollected| && a.tricksWon > b.tricksWon)
    ensures DealWinner(a, b) == 1 <==>
      |b.tensCollected| > |a.tensCollected| || (|a.tensCollected| == |b.tensCollected| && b.tricksWon > a.tricksWon)
  {
  }

  /** The engine's `completeDeal()`: the winning team scores one deal and
      the next dealer is chosen from the outcome. Without teams 0 and 1
      nothing happens. */
  function CompleteDeal(s: State): (r: State)
    ensures r == s.(teamScores := r.teamScores, currentDealer := r.currentDealer)
  {
    match (GetTeam(s, 0), GetTeam(s, 1))
    case (Some(a), Some(b)) =>
      var w := DealWinner(a, b);
      var s1 := UpdateScoreForDeal(s, w);
      var whitewash := (w == 0 && HasWhitewash(a)) || (w == 1 && HasWhitewash(b));
      var dealerTeamId := GetTeamIdForPlayer(s1, s1.currentDealer).GetOr(0);
      s1.(currentDealer := DetermineNextDealer(s1, dealerTeamId == w, whitewash))
    case _ => s
  }

  /** In a well-formed state with a seated dealer, exactly one team, the
      `DealWinner`, gains one point; the new dealer sits in the losing team,
      and is the old dealer's partner exactly when the dealer's team lost
      to a whitewash. */
  lemma CompleteDealEffects(s: State)
    requires WellFormed(s) && 0 <= s.currentDealer < 4
    ensures var r := CompleteDeal(s);
      var w := DealWinner(s.teams[0], s.teams[1]);
      var d := s.currentDealer;
      var whitewash := HasWhitewash(s.teams[w]);
      && (w == 0 || w == 1)
      && Score(r.teamScores, w) == Score(s.teamScores, w) + 1
      && Score(r.teamScores, 1 - w) == Score(s.teamScores, 1 - w)
      && 0 <= r.currentDealer < 4
      && r.currentDealer % 2 != w
      && (d % 2 == w ==> r.currentDealer == (d + 1) % 4)
      && (d % 2 != w && whitewash ==> r.currentDealer == (d + 2) % 4)
      && (d % 2 != w && !whitewash ==> r.currentDealer == d)
      && WellFormed(r)
  {
    WellFormedLookups(s, 0);
    WellFormedLookups(s, 1);
    WellFormedLookups(s, s.currentDealer);
    var w := DealWinner(s.teams[0], s.teams[1]);
    var s1 := UpdateScoreForDeal(s, w);
    NextDealerOnLosingTeam(s1, s.currentDealer % 2 == w, HasWhitewash(s.teams[w]));
  }

  /** `startNewDeal()`: reset the deal, deal the shuffled deck, and give the
      turn to the seat after the dealer (who selects trump). */
  function StartNewDeal(s: State, deck: seq<Card>): (r: State)
    requires |deck| >= 52
    ensures r.dealsPlayed == s.dealsPlayed + 1 && r.teamScores == s.teamScores
    ensures r.currentDealer == s.currentDealer && r.currentTurn == Rem(s.currentDealer + 1, 4)
    ensures r.trumpCard.None? && r.trumpSuit.None? && !r.trumpRevealed
    ensures r.leadSuit.None? && r.currentTrick == []
    ensures |r.teams| == |s.teams|
    ensures forall t :: 0 <= t < |s.teams| ==>
      r.teams[t].tricksWon == 0 && r.teams[t].tensCollected == [] && r.teams[t].players == s.teams[t].players
  {
    var reset := ResetForNewDeal(s);
    var dealt := DealCards(reset, deck);
    assert dealt.currentDealer == reset.currentDealer == s.currentDealer;
    dealt.(currentTurn := Rem(s.currentDealer + 1, 4))
  }

  /** From a well-formed state a new deal leaves the state well-formed with
      thirteen cards in every hand. */
  lemma StartNewDealHands(s: State, deck: seq<Card>)
    requires WellFormed(s) && |deck| >= 52
    ensures WellFormed(StartNewDeal(s, deck))
    ensures forall q :: 0 <= q < 4 ==> |StartNewDeal(s, deck).players[q].hand| == 13
  {
    DealCardsHands(ResetForNewDeal(s), deck);
    DealCardsThirteen(ResetForNewDeal(s), deck);
  }
}
