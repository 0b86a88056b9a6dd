/** Cards, suits, ranks and the standard 52-card deck (model/Card.kt). */
module Cards {
  import opened Wrappers

  datatype Suit = Hearts | Spades | Diamonds | Clubs

  /** Declared from highest to lowest, as in the Kotlin enum. */
  datatype Rank = Ace | King | Queen | Jack | Ten | Nine | Eight | Seven | Six | Five | Four | Three | Two

  /** `Suit.values()`, in declaration order. */
  const AllSuits: seq<Suit> := [Hearts, Spades, Diamonds, Clubs]

  /** `Rank.values()`, in declaration order. */
  const AllRanks: seq<Rank> := [Ace, King, Queen, Jack, Ten, Nine, Eight, Seven, Six, Five, Four, Three, Two]

  /** `Suit.ordinal`: the position of the suit in `AllSuits`. */
  function SuitOrdinal(s: Suit): (n: nat)
    ensures n < |AllSuits| && AllSuits[n] == s
  {
    match s
    case Hearts => 0
    case Spades => 1
    case Diamonds => 2
    case Clubs => 3
  }

  /** `Rank.ordinal`: the position of the rank in `AllRanks`. */
  function RankOrdinal(r: Rank): (n: nat)
    ensures n < |AllRanks| && AllRanks[n] == r
  {
    match r
    case Ace => 0
    case King => 1
    case Queen => 2
    case Jack => 3
    case Ten => 4
    case Nine => 5
    case Eight => 6
    case Seven => 7
    case Six => 8
    case Five => 9
    case Four => 10
    case Three => 11
    case Two => 12
  }

  /** `Rank.value`: the face value every comparison of the game uses.
      It falls by one per declared rank, from 14 (Ace) to 2 (Two). */
  function Value(r: Rank): (v: int)
    ensures v == 14 - RankOrdinal(r)
    ensures 2 <= v <= 14
  {
    match r
    case Ace => 14
    case King => 13
    case Queen => 12
    case Jack => 11
    case Ten => 10
    case Nine => 9
    case Eight => 8
    case Seven => 7
    case Six => 6
    case Five => 5
    case Four => 4
    case Three => 3
    case Two => 2
  }

  /** The ordinal of the rank at index `i` of `AllRanks` is `i`. */
  lemma RankOrdinalOfIndex(i: int)
    requires 0 <= i < |AllRanks|
    ensures RankOrdinal(AllRanks[i]) == i
  {
  }

  /** Values strictly decrease along the declaration order, so `Value`
      orders the ranks totally and is injective. */
  lemma ValueStrictlyDecreasing(i: int, j: int)
    requires 0 <= i < j < |AllRanks|
    ensures Value(AllRanks[i]) > Value(AllRanks[j])
  {
    RankOrdinalOfIndex(i);
    RankOrdinalOfIndex(j);
  }

  lemma ValueInjective(r1: Rank, r2: Rank)
    requires Value(r1) == Value(r2)
    ensures r1 == r2
  {
  }

  datatype Card = Card(suit: Suit, rank: Rank)

  /** `Card.isTen`: the tens are the scoring cards, exactly the four cards
      of `AllTens`, one per suit. */
  predicate IsTen(c: Card)
    ensures IsTen(c) <==> c in AllTens
  {
    assert forall n :: 0 <= n < 4 ==> AllTens[n] == Card(AllSuits[n], Ten);
    assert c.rank == Ten ==> c == AllTens[SuitOrdinal(c.suit)];
    c.rank == Ten
  }

  /** `cards.filter { it.isTen }`. */
  function TensOf(cards: seq<Card>): seq<Card>
  {
    if cards == [] then []
    else (if IsTen(cards[0]) then [cards[0]] else []) + TensOf(cards[1..])
  }

  /** The filter keeps every ten, as often as it occurs, and nothing else. */
  lemma {:induction false} TensOfCounts(cards: seq<Card>)
    ensures forall c :: multiset(TensOf(cards))[c] == if IsTen(c) then multiset(cards)[c] else 0
    ensures forall i :: 0 <= i < |TensOf(cards)| ==> IsTen(TensOf(cards)[i])
    decreases |cards|
  {
    if cards != [] {
      TensOfCounts(cards[1..]);
      assert cards == [cards[0]] + cards[1..];
    }
  }

  lemma {:induction false} TensOfAppend(a: seq<Card>, b: seq<Card>)
    ensures TensOf(a + b) == TensOf(a) + TensOf(b)
    decreases |a|
  {
    if a == [] {
      assert a + b == b;
    } else {
      var head := if IsTen(a[0]) then [a[0]] else [];
      assert (a + b)[0] == a[0] && (a + b)[1..] == a[1..] + b;
      assert TensOf(a + b) == head + TensOf(a[1..] + b);
      TensOfAppend(a[1..], b);
      assert TensOf(a) == head + TensOf(a[1..]);
    }
  }

  /** No ten among `cards` leaves nothing after the filter. */
  lemma {:induction false} TensOfNoTens(cards: seq<Card>)
    requires forall i :: 0 <= i < |cards| ==> !IsTen(cards[i])
    ensures TensOf(cards) == []
    decreases |cards|
  {
    if cards != [] {
      TensOfNoTens(cards[1..]);
    }
  }

  /** The thirteen cards of one suit, in rank declaration order: every
      card of the suit once, and no card of another suit. */
  function SuitRow(s: Suit): (row: seq<Card>)
    ensures |row| == |AllRanks|
    ensures forall j :: 0 <= j < |row| ==> row[j] == Card(s, AllRanks[j])
    ensures Distinct(row)
    ensures forall c :: c in row <==> c.suit == s
  {
    var row := seq(|AllRanks|, j requires 0 <= j < |AllRanks| => Card(s, AllRanks[j]));
    assert forall j :: 0 <= j < |AllRanks| ==> RankOrdinal(AllRanks[j]) == j;
    assert forall r: Rank :: row[RankOrdinal(r)] == Card(s, r);
    row
  }

  /** The nested loops of `createDeck`, from the suit at index `k` on. */
  function DeckFrom(k: nat): (d: seq<Card>)
    requires k <= |AllSuits|
    ensures |d| == 13 * (4 - k)
    ensures forall i :: 0 <= i < |d| ==> d[i] == Card(AllSuits[k + i / 13], AllRanks[i % 13])
    decreases 4 - k
  {
    if k == 4 then []
    else
      var row := SuitRow(AllSuits[k]);
      var rest := DeckFrom(k + 1);
      var d := row + rest;
      assert forall i :: 0 <= i < 13 ==> d[i] == Card(AllSuits[k + i / 13], AllRanks[i % 13]) by {
        forall i | 0 <= i < 13
          ensures d[i] == Card(AllSuits[k + i / 13], AllRanks[i % 13])
        {
          assert d[i] == row[i] && i / 13 == 0 && i % 13 == i;
        }
      }
      assert forall i :: 13 <= i < |d| ==> d[i] == Card(AllSuits[k + i / 13], AllRanks[i % 13]) by {
        forall i | 13 <= i < |d|
          ensures d[i] == Card(AllSuits[k + i / 13], AllRanks[i % 13])
        {
          assert d[i] == rest[i - 13] && i / 13 == (i - 13) / 13 + 1 && i % 13 == (i - 13) % 13;
        }
      }
      d
  }

  /** `Card.createDeck()`: suit-major, so index `i` holds the suit at
      `i / 13` and the rank at `i % 13`; index 0 is the ace of hearts. */
  function CreateDeck(): (deck: seq<Card>)
    ensures |deck| == 52
    ensures forall i :: 0 <= i < 52 ==> deck[i] == Card(AllSuits[i / 13], AllRanks[i % 13])
    ensures deck[0] == Card(Hearts, Ace)
  {
    DeckFrom(0)
  }

  /** No card repeats in a sequence. */
  predicate Distinct<T(==)>(s: seq<T>)
  {
    forall i, j :: 0 <= i < j < |s| ==> s[i] != s[j]
  }

  /** The 52 cards of the deck are pairwise distinct. */
  lemma DeckDistinct()
    ensures Distinct(CreateDeck())
  {
    var d := CreateDeck();
    forall i, j | 0 <= i < j < 52
      ensures d[i] != d[j]
    {
      assert i == 13 * (i / 13) + i % 13;
      assert j == 13 * (j / 13) + j % 13;
      if i / 13 != j / 13 {
        assert AllSuits[i / 13] != AllSuits[j / 13];
      } else {
        RankOrdinalOfIndex(i % 13);
        RankOrdinalOfIndex(j % 13);
      }
    }
  }

  /** Every (suit, rank) pair occurs in the deck, at index
      `13 * suit ordinal + rank ordinal`. */
  lemma DeckComplete(c: Card)
    ensures 13 * SuitOrdinal(c.suit) + RankOrdinal(c.rank) < 52
    ensures CreateDeck()[13 * SuitOrdinal(c.suit) + RankOrdinal(c.rank)] == c
  {
    var i := 13 * SuitOrdinal(c.suit) + RankOrdinal(c.rank);
    assert i / 13 == SuitOrdinal(c.suit);
    assert i % 13 == RankOrdinal(c.rank);
  }

  /** The four tens, in the deck's suit order. */
  const AllTens: seq<Card> := [Card(Hearts, Ten), Card(Spades, Ten), Card(Diamonds, Ten), Card(Clubs, Ten)]

  lemma SuitRowTens(s: Suit)
    ensures TensOf(SuitRow(s)) == [Card(s, Ten)]
  {
    var row := SuitRow(s);
    var high, ten, low := row[..4], [row[4]], row[5..];
    assert row[4] == Card(s, Ten);
    assert row == (high + ten) + low;
    assert forall i :: 0 <= i < |high| ==> !IsTen(high[i]);
    assert forall i :: 0 <= i < |low| ==> !IsTen(low[i]);
    TensOfNoTens(high);
    TensOfNoTens(low);
    TensOfAppend(high + ten, low);
    TensOfAppend(high, ten);
    assert TensOf(ten) == ten + TensOf([]);
  }

  lemma {:induction false} DeckFromTens(k: nat)
    requires k <= |AllSuits|
    ensures TensOf(DeckFrom(k)) == AllTens[k..]
    decreases 4 - k
  {
    if k < 4 {
      DeckFromTens(k + 1);
      SuitRowTens(AllSuits[k]);
      TensOfAppend(SuitRow(AllSuits[k]), DeckFrom(k + 1));
      assert AllTens[k..] == [Card(AllSuits[k], Ten)] + AllTens[k + 1..];
    }
  }

  /** Exactly the four tens of the deck are scoring cards, one per suit. */
  lemma DeckTens()
    ensures TensOf(CreateDeck()) == AllTens
  {
    DeckFromTens(0);
  }

  /** The rank part of an image resource name. */
  function RankName(r: Rank): string
  {
    match r
    case Ace => "ace"
    case King => "king"
    case Queen => "queen"
    case Jack => "jack"
    case Ten => "10"
    case Nine => "9"
    case Eight => "8"
    case Seven => "7"
    case Six => "6"
    case Five => "5"
    case Four => "4"
    case Three => "3"
    case Two => "2"
  }

  /** The suit part of an image resource name. */
  function SuitName(s: Suit): string
  {
    match s
    case Hearts => "hearts"
    case Spades => "spades"
    case Diamonds => "diamonds"
    case Clubs => "clubs"
  }

  /** `getImageResourceName()`: "rank_of_suit", e.g. "10_of_spades". */
  function ImageName(c: Card): (name: string)
    ensures |name| == |RankName(c.rank)| + 4 + |SuitName(c.suit)|
    ensures ParseImageName(name) == Some(c)
  {
    var rn, sn := RankName(c.rank), SuitName(c.suit);
    var name := rn + "_of_" + sn;
    RankNameRoundTrip(c.rank);
    SuitNameRoundTrip(c.suit);
    assert name == rn + ("_of_" + sn);
    IndexOfCharAfter(rn, "_of_" + sn, '_');
    assert name[..|rn|] == rn && name[|rn|..|rn| + 4] == "_of_" && name[|rn| + 4..] == sn;
    name
  }

  /** The rank whose name is `n`, if any. */
  function RankOfName(n: string): (r: Option<Rank>)
    ensures r.Some? ==> RankName(r.value) == n
  {
    if n == "ace" then Some(Ace)
    else if n == "king" then Some(King)
    else if n == "queen" then Some(Queen)
    else if n == "jack" then Some(Jack)
    else if n == "10" then Some(Ten)
    else if n == "9" then Some(Nine)
    else if n == "8" then Some(Eight)
    else if n == "7" then Some(Seven)
    else if n == "6" then Some(Six)
    else if n == "5" then Some(Five)
    else if n == "4" then Some(Four)
    else if n == "3" then Some(Three)
    else if n == "2" then Some(Two)
    else None
  }

  /** The suit whose name is `n`, if any. */
  function SuitOfName(n: string): (s: Option<Suit>)
    ensures s.Some? ==> SuitName(s.value) == n
  {
    if n == "hearts" then Some(Hearts)
    else if n == "spades" then Some(Spades)
    else if n == "diamonds" then Some(Diamonds)
    else if n == "clubs" then Some(Clubs)
    else None
  }

  /** The index of the first occurrence of `ch` in `s`. */
  function IndexOfChar(s: string, ch: char): (r: Option<nat>)
    ensures r.Some? ==> r.value < |s| && s[r.value] == ch && ch !in s[..r.value]
    ensures r.None? ==> ch !in s
  {
    if s == [] then None
    else if s[0] == ch then Some(0)
    else
      match IndexOfChar(s[1..], ch)
      case None => None
      case Some(k) =>
        assert s[..k + 1] == [s[0]] + s[1..][..k];
        Some(k + 1)
  }

  /** Reads a card back from its image resource name: the rank name runs
      up to the first underscore, then "_of_", then the suit name. */
  function ParseImageName(name: string): Option<Card>
  {
    match IndexOfChar(name, '_')
    case None => None
    case Some(k) =>
      if k + 4 <= |name| && name[k..k + 4] == "_of_" then
        match (RankOfName(name[..k]), SuitOfName(name[k + 4..]))
        case (Some(r), Some(s)) => Some(Card(s, r))
        case _ => None
      else None
  }

  lemma RankNameRoundTrip(r: Rank)
    ensures RankOfName(RankName(r)) == Some(r)
    ensures '_' !in RankName(r)
  {
  }

  lemma SuitNameRoundTrip(s: Suit)
    ensures SuitOfName(SuitName(s)) == Some(s)
  {
  }

  /** The first `ch` of `a + b` is the head of `b` when `a` has none. */
  lemma {:induction false} IndexOfCharAfter(a: string, b: string, ch: char)
    requires ch !in a && |b| > 0 && b[0] == ch
    ensures IndexOfChar(a + b, ch) == Some(|a|)
    decreases |a|
  {
    if a == [] {
      assert (a + b)[0] == ch;
    } else {
      assert (a + b)[1..] == a[1..] + b;
      IndexOfCharAfter(a[1..], b, ch);
    }
  }

  /** The image name determines the card, and only well-formed names parse:
      `ParseImageName` inverts `ImageName` in both directions. */
  lemma ImageNameRoundTrip(c: Card, name: string)
    ensures ParseImageName(name) == Some(c) <==> ImageName(c) == name
  {
    if ParseImageName(name) == Some(c) {
      var k := IndexOfChar(name, '_').value;
      assert name == name[..k] + name[k..k + 4] + name[k + 4..];
    }
  }

  /** Distinct cards have distinct image names. */
  lemma ImageNameInjective(c1: Card, c2: Card)
    requires ImageName(c1) == ImageName(c2)
    ensures c1 == c2
  {
    ImageNameRoundTrip(c1, ImageName(c1));
    ImageNameRoundTrip(c2, ImageName(c1));
  }
}
