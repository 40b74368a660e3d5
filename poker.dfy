/** Playing cards and the comparer that orders them: ranks from lowest to
    highest are 4, 5, ..., 10, J, Q, K, A, 2, 3, Joker, and a tie on rank is
    broken by suit, Clubs < Spades < Diamonds < Hearts. */
module Poker {
  import Wrappers

  /** Suits in declaration order; `None` is the suit of a Joker. */
  datatype CardSuit = Hearts | Diamonds | Clubs | Spades | None

  /** Ranks in declaration order (which is not the playing order). */
  datatype CardRank =
    RankA | Rank2 | Rank3 | Rank4 | Rank5 | Rank6 | Rank7
    | Rank8 | Rank9 | Rank10 | RankJ | RankQ | RankK | Joker

  /** The `ArgumentException` the card constructor throws. */
  datatype CardError = JokerHasNoSuit

  /** The `ArgumentException` `ToDictionary` throws on a repeated key. */
  datatype DuplicateKey = DuplicateKey

  /** The `KeyNotFoundException` a dictionary lookup throws. */
  datatype KeyNotFound = KeyNotFound

  datatype Card = Card(suit: CardSuit, rank: CardRank)

  /** The constructor's rule: only a Joker may go without a suit. */
  predicate IsValidCard(c: Card)
  {
    c.suit != None || c.rank == Joker
  }

  /** `new Card(suit, rank)`: refuses a suitless card unless it is a Joker;
      a Joker with a real suit is accepted. */
  function NewCard(suit: CardSuit, rank: CardRank): (r: Wrappers.Result<Card, CardError>)
    ensures r.Ok? <==> IsValidCard(Card(suit, rank))
    ensures r.Ok? ==> r.value.suit == suit && r.value.rank == rank
  {
    if suit == None && rank != Joker then Wrappers.Err(JokerHasNoSuit)
    else Wrappers.Ok(Card(suit, rank))
  }

  /** `Card.Equals(Card)`: false for `null`, otherwise equal rank and suit. */
  function Equals(x: Card, other: Wrappers.Option<Card>): (r: bool)
    ensures r <==> other == Wrappers.Some(x)
  {
    match other
    case None => false
    case Some(y) => x.rank == y.rank && x.suit == y.suit
  }

  /** `int.CompareTo`: -1, 0 or 1 as `a` is below, equal to or above `b`. */
  function CompareTo(a: int, b: int): (r: int)
    ensures r < 0 <==> a < b
    ensures r == 0 <==> a == b
    ensures r > 0 <==> a > b
    ensures -1 <= r <= 1
  {
    if a < b then -1 else if a > b then 1 else 0
  }

  /** The rank priority list the comparer is built from, highest first. */
  const RankOrder: seq<CardRank> :=
    [Joker, Rank3, Rank2, RankA, RankK, RankQ, RankJ, Rank10, Rank9, Rank8, Rank7, Rank6, Rank5, Rank4]

  /** The suit priority list, highest first; `None` is not in it. */
  const SuitOrder: seq<CardSuit> := [Hearts, Diamonds, Spades, Clubs]

  /** The order the description states, written independently of the
      lists: a larger number is a higher rank. */
  function RankValue(r: CardRank): int
  {
    match r
    case Joker => 14
    case Rank3 => 13
    case Rank2 => 12
    case RankA => 11
    case RankK => 10
    case RankQ => 9
    case RankJ => 8
    case Rank10 => 7
    case Rank9 => 6
    case Rank8 => 5
    case Rank7 => 4
    case Rank6 => 3
    case Rank5 => 2
    case Rank4 => 1
  }

  /** Suit precedence as the description states it; 0 for `None`, which
      has no place in the order. */
  function SuitValue(s: CardSuit): int
  {
    match s
    case Hearts => 4
    case Diamonds => 3
    case Spades => 2
    case Clubs => 1
    case None => 0
  }

  /** `s` read back to front (`List.Reverse`). */
  function Reversed<T>(s: seq<T>): seq<T>
  {
    seq(|s|, i requires 0 <= i < |s| => s[|s| - 1 - i])
  }

  predicate Distinct<T(==)>(s: seq<T>)
  {
    forall i, j :: 0 <= i < j < |s| ==> s[i] != s[j]
  }

  /** `m` gives the element at index `i` of an `n`-element list the number
      `n - i`, and has no other keys. */
  ghost predicate IsReverseIndexed<T>(s: seq<T>, m: map<T, int>)
  {
    m.Keys == (set i | 0 <= i < |s| :: s[i])
    && forall i :: 0 <= i < |s| ==> m[s[i]] == |s| - i
  }

  class PokerComparer {
    var rankDict: map<CardRank, int>
    var suitDict: map<CardSuit, int>

    /** Both tables hold the stated order: every rank, every suit but
        `None`, each with its precedence. */
    ghost predicate Valid()
      reads this
    {
      (forall r :: r in rankDict && rankDict[r] == RankValue(r))
      && (forall s :: s in suitDict <==> s != None)
      && (forall s :: s in suitDict ==> suitDict[s] == SuitValue(s))
    }

    /** Builds both tables from their priority lists. */
    constructor()
      ensures Valid()
    {
      var rankOrdList := new CardRank[][Joker, Rank3, Rank2, RankA, RankK, RankQ, RankJ,
                                        Rank10, Rank9, Rank8, Rank7, Rank6, Rank5, Rank4];
      assert rankOrdList[..] == RankOrder;
      RankOrderDistinct();
      var ranks := ListToReverseIndexedDict(rankOrdList);
      RankTableFromOrder(ranks.value);
      rankDict := ranks.value;

      var suitOrdList := new CardSuit[][Hearts, Diamonds, Spades, Clubs];
      assert suitOrdList[..] == SuitOrder;
      var suits := ListToReverseIndexedDict(suitOrdList);
      SuitTableFromOrder(suits.value);
      suitDict := suits.value;
    }

    /** Reverses `a` in place. */
    static method Reverse<T>(a: array<T>)
      modifies a
      ensures a[..] == Reversed(old(a[..]))
    {
      var n := a.Length;
      var i := 0;
      while i < n / 2
        invariant 0 <= i <= n / 2
        invariant forall k :: 0 <= k < i ==> a[k] == old(a[n - 1 - k]) && a[n - 1 - k] == old(a[k])
        invariant forall k :: i <= k < n - i ==> a[k] == old(a[k])
      {
        a[i], a[n - 1 - i] := a[n - 1 - i], a[i];
        i := i + 1;
      }
    }

    /** `Zip` with `Enumerable.Range(1, n)` followed by `ToDictionary`: the
        element at index `j` gets the number `j + 1`; a repeated element makes
        `ToDictionary` fail. */
    static method NumberFromOne<T(==)>(list: array<T>) returns (r: Wrappers.Result<map<T, int>, DuplicateKey>)
      ensures r.Ok? <==> Distinct(list[..])
      ensures r.Ok? ==> forall x :: x in r.value <==> x in list[..]
      ensures r.Ok? ==> forall j :: 0 <= j < list.Length ==> r.value[list[j]] == j + 1
    {
      var m: map<T, int> := map[];
      var i := 0;
      while i < list.Length
        invariant 0 <= i <= list.Length
        invariant Distinct(list[..i])
        invariant forall x :: x in m <==> x in list[..i]
        invariant forall j :: 0 <= j < i ==> m[list[j]] == j + 1
      {
        if list[i] in m {
          RepeatedNotDistinct(list[..], i);
          return Wrappers.Err(DuplicateKey);
        }
        m := m[list[i] := i + 1];
        i := i + 1;
      }
      assert list[..i] == list[..];
      return Wrappers.Ok(m);
    }

    /** `ListToReverseIndexedDict`: reverses the list in place, then numbers
        its elements 1, 2, ... into a dictionary, so that the first element
        of the original list gets the largest number. */
    static method ListToReverseIndexedDict<T(==)>(srcList: array<T>) returns (r: Wrappers.Result<map<T, int>, DuplicateKey>)
      modifies srcList
      ensures srcList[..] == Reversed(old(srcList[..]))
      ensures r.Ok? <==> Distinct(old(srcList[..]))
      ensures r.Ok? ==> IsReverseIndexed(old(srcList[..]), r.value)
    {
      ghost var s := srcList[..];
      Reverse(srcList);
      r := NumberFromOne(srcList);
      ReversedDistinct(s);
      if r.Ok? {
        ReversedIndexing(s, r.value);
      }
    }

    /** `Compare`: the rank precedences decide; on a tie the suit
        precedences do. A rank or suit without an entry makes the lookup
        fail. */
    function Compare(x: Card, y: Card): (r: Wrappers.Result<int, KeyNotFound>)
      reads this
      ensures r.Ok? ==> -1 <= r.value <= 1
    {
      if x.rank !in rankDict || y.rank !in rankDict then Wrappers.Err(KeyNotFound)
      else
        var rankCompare := CompareTo(rankDict[x.rank], rankDict[y.rank]);
        if rankCompare != 0 then Wrappers.Ok(rankCompare)
        else if x.suit !in suitDict || y.suit !in suitDict then Wrappers.Err(KeyNotFound)
        else Wrappers.Ok(CompareTo(suitDict[x.suit], suitDict[y.suit]))
    }
  }

  // ---------------------------------------------------------------------
  // Facts about reversal and numbering

  lemma ReversedDistinct<T>(s: seq<T>)
    ensures Distinct(Reversed(s)) <==> Distinct(s)
  {
    var r := Reversed(s);
    if Distinct(s) {
      forall i, j | 0 <= i < j < |r| ensures r[i] != r[j] {
        assert r[i] == s[|s| - 1 - i] && r[j] == s[|s| - 1 - j];
      }
    }
    if Distinct(r) {
      forall i, j | 0 <= i < j < |s| ensures s[i] != s[j] {
        assert s[i] == r[|s| - 1 - i] && s[j] == r[|s| - 1 - j];
      }
    }
  }

  /** Reversal is its own inverse. */
  lemma ReversedTwice<T>(s: seq<T>)
    ensures Reversed(Reversed(s)) == s
  {
  }

  lemma RepeatedNotDistinct<T>(s: seq<T>, i: int)
    requires 0 <= i < |s|
    requires s[i] in s[..i]
    ensures !Distinct(s)
  {
    var j :| 0 <= j < i && s[..i][j] == s[i];
    assert s[j] == s[i];
  }

  /** Numbering the reversed list 1, 2, ... numbers the original `n, n-1, ...`. */
  lemma ReversedIndexing<T>(s: seq<T>, m: map<T, int>)
    requires forall x :: x in m <==> x in Reversed(s)
    requires forall j :: 0 <= j < |s| ==> m[Reversed(s)[j]] == j + 1
    ensures IsReverseIndexed(s, m)
  {
    var r := Reversed(s);
    forall x ensures x in m <==> x in s {
      if x in s {
        var k :| 0 <= k < |s| && s[k] == x;
        assert r[|s| - 1 - k] == x;
      }
      if x in r {
        var k :| 0 <= k < |r| && r[k] == x;
        assert s[|s| - 1 - k] == x;
      }
    }
    forall i | 0 <= i < |s| ensures m[s[i]] == |s| - i {
      assert r[|s| - 1 - i] == s[i];
    }
  }

  /** A reverse-indexed dictionary of a list without repeats is a bijection
      from the list's elements onto 1..n in which an earlier element gets
      the larger number. */
  lemma ReverseIndexedBijection<T>(s: seq<T>, m: map<T, int>)
    requires Distinct(s)
    requires IsReverseIndexed(s, m)
    ensures forall x :: x in m ==> 1 <= m[x] <= |s|
    ensures forall v :: v in m.Values <==> 1 <= v <= |s|
    ensures forall x, y :: x in m && y in m && m[x] == m[y] ==> x == y
    ensures forall i, j :: 0 <= i < j < |s| ==> m[s[i]] > m[s[j]]
  {
    forall x | x in m ensures 1 <= m[x] <= |s| {
      var k :| 0 <= k < |s| && s[k] == x;
    }
    forall v | 1 <= v <= |s| ensures v in m.Values {
      assert m[s[|s| - v]] == v;
    }
    forall x, y | x in m && y in m && m[x] == m[y] ensures x == y {
      var i :| 0 <= i < |s| && s[i] == x;
      var j :| 0 <= j < |s| && s[j] == y;
    }
  }

  // ---------------------------------------------------------------------
  // The tables the constructor builds

  lemma RankOrderDistinct()
    ensures Distinct(RankOrder)
  {
    forall i, j | 0 <= i < j < |RankOrder| ensures RankOrder[i] != RankOrder[j] {
      assert RankValue(RankOrder[i]) == 14 - i;
      assert RankValue(RankOrder[j]) == 14 - j;
    }
  }

  /** The priority list and the stated order agree: the rank at position
      `i` of the list has precedence `14 - i`, and every rank is listed. */
  lemma RankOrderValues()
    ensures forall i :: 0 <= i < |RankOrder| ==> RankValue(RankOrder[i]) == |RankOrder| - i
    ensures forall r :: r in RankOrder
  {
    forall r ensures r in RankOrder {
      match r
      case RankA => assert RankOrder[3] == r;
      case Rank2 => assert RankOrder[2] == r;
      case Rank3 => assert RankOrder[1] == r;
      case Rank4 => assert RankOrder[13] == r;
      case Rank5 => assert RankOrder[12] == r;
      case Rank6 => assert RankOrder[11] == r;
      case Rank7 => assert RankOrder[10] == r;
      case Rank8 => assert RankOrder[9] == r;
      case Rank9 => assert RankOrder[8] == r;
      case Rank10 => assert RankOrder[7] == r;
      case RankJ => assert RankOrder[6] == r;
      case RankQ => assert RankOrder[5] == r;
      case RankK => assert RankOrder[4] == r;
      case Joker => assert RankOrder[0] == r;
    }
  }

  lemma RankTableFromOrder(m: map<CardRank, int>)
    requires IsReverseIndexed(RankOrder, m)
    ensures forall r :: r in m && m[r] == RankValue(r)
  {
    RankOrderValues();
    forall r ensures r in m && m[r] == RankValue(r) {
      assert r in RankOrder;
      var i :| 0 <= i < |RankOrder| && RankOrder[i] == r;
    }
  }

  lemma SuitTableFromOrder(m: map<CardSuit, int>)
    requires IsReverseIndexed(SuitOrder, m)
    ensures forall s :: s in m <==> s != None
    ensures forall s :: s in m ==> m[s] == SuitValue(s)
  {
    forall s ensures s in m <==> s != None {
      match s
      case Hearts => assert SuitOrder[0] == s;
      case Diamonds => assert SuitOrder[1] == s;
      case Spades => assert SuitOrder[2] == s;
      case Clubs => assert SuitOrder[3] == s;
      case None =>
    }
    forall s | s in m ensures m[s] == SuitValue(s) {
      var i :| 0 <= i < |SuitOrder| && SuitOrder[i] == s;
    }
  }
}

/** What the comparer's order is: a precedence key, totality on cards
    with a suit, and the failure on suitless rank ties. */
module PokerOrder {
  import Wrappers
  import opened Poker

  /** One number per card that orders cards the way the description
      states: rank precedence first, suit precedence on a tie. */
  function Key(c: Card): int
  {
    RankValue(c.rank) * 10 + SuitValue(c.suit)
  }

  lemma RankValueInjective(a: CardRank, b: CardRank)
    requires RankValue(a) == RankValue(b)
    ensures a == b
  {
    match a
    case RankA => assert b == RankA;
    case Rank2 => assert b == Rank2;
    case Rank3 => assert b == Rank3;
    case Rank4 => assert b == Rank4;
    case Rank5 => assert b == Rank5;
    case Rank6 => assert b == Rank6;
    case Rank7 => assert b == Rank7;
    case Rank8 => assert b == Rank8;
    case Rank9 => assert b == Rank9;
    case Rank10 => assert b == Rank10;
    case RankJ => assert b == RankJ;
    case RankQ => assert b == RankQ;
    case RankK => assert b == RankK;
    case Joker => assert b == Joker;
  }

  /** Different cards have different keys. */
  lemma KeyInjective(x: Card, y: Card)
    requires Key(x) == Key(y)
    ensures x == y
  {
    assert 1 <= RankValue(x.rank) <= 14 && 0 <= SuitValue(x.suit) <= 4;
    assert 1 <= RankValue(y.rank) <= 14 && 0 <= SuitValue(y.suit) <= 4;
    assert RankValue(x.rank) == RankValue(y.rank);
    RankValueInjective(x.rank, y.rank);
  }

  /** `Compare` fails exactly on a rank tie where one of the two cards has
      no suit, and otherwise gives the sign of the key difference. */
  lemma CompareByKey(p: PokerComparer, x: Card, y: Card)
    requires p.Valid()
    ensures p.Compare(x, y).Err? <==> x.rank == y.rank && (x.suit == None || y.suit == None)
    ensures p.Compare(x, y).Ok? ==> p.Compare(x, y).value == CompareTo(Key(x), Key(y))
  {
    if RankValue(x.rank) == RankValue(y.rank) {
      RankValueInjective(x.rank, y.rank);
    }
  }

  /** When the ranks differ, the rank precedences alone decide, whatever
      the suits (`None` included). */
  lemma RankDominates(p: PokerComparer, x: Card, y: Card)
    requires p.Valid()
    requires x.rank != y.rank
    ensures p.Compare(x, y) == Wrappers.Ok(CompareTo(RankValue(x.rank), RankValue(y.rank)))
  {
    if RankValue(x.rank) == RankValue(y.rank) {
      RankValueInjective(x.rank, y.rank);
    }
  }

  /** A Joker beats every other rank and a 4 loses to every other rank. */
  lemma JokerHighestFourLowest(p: PokerComparer, x: Card, y: Card)
    requires p.Valid()
    ensures x.rank == Joker && y.rank != Joker ==> p.Compare(x, y) == Wrappers.Ok(1) && p.Compare(y, x) == Wrappers.Ok(-1)
    ensures x.rank == Rank4 && y.rank != Rank4 ==> p.Compare(x, y) == Wrappers.Ok(-1) && p.Compare(y, x) == Wrappers.Ok(1)
  {
    if x.rank != y.rank {
      RankDominates(p, x, y);
      RankDominates(p, y, x);
    }
  }

  /** On a rank tie: Hearts > Diamonds > Spades > Clubs. */
  lemma SuitOrderOnTies(p: PokerComparer, r: CardRank)
    requires p.Valid()
    ensures p.Compare(Card(Hearts, r), Card(Diamonds, r)) == Wrappers.Ok(1)
    ensures p.Compare(Card(Diamonds, r), Card(Spades, r)) == Wrappers.Ok(1)
    ensures p.Compare(Card(Spades, r), Card(Clubs, r)) == Wrappers.Ok(1)
  {
  }

  /** A card compares equal to itself exactly when it has a suit: a
      suitless Joker cannot be compared even with itself. */
  lemma CompareReflexive(p: PokerComparer, x: Card)
    requires p.Valid()
    ensures p.Compare(x, x) == Wrappers.Ok(0) <==> x.suit != None
  {
  }

  /** Swapping the arguments negates the result. */
  lemma CompareAntisymmetric(p: PokerComparer, x: Card, y: Card)
    requires p.Valid()
    requires p.Compare(x, y).Ok?
    ensures p.Compare(y, x) == Wrappers.Ok(-p.Compare(x, y).value)
  {
    CompareByKey(p, x, y);
    CompareByKey(p, y, x);
  }

  /** "Not above" is transitive, and the composed comparison is defined. */
  lemma CompareTransitive(p: PokerComparer, x: Card, y: Card, z: Card)
    requires p.Valid()
    requires p.Compare(x, y).Ok? && p.Compare(x, y).value <= 0
    requires p.Compare(y, z).Ok? && p.Compare(y, z).value <= 0
    ensures p.Compare(x, z).Ok? && p.Compare(x, z).value <= 0
    ensures p.Compare(x, y).value < 0 || p.Compare(y, z).value < 0 ==> p.Compare(x, z).value < 0
  {
    CompareByKey(p, x, y);
    CompareByKey(p, y, z);
    CompareByKey(p, x, z);
    if x.rank == z.rank {
      assert RankValue(x.rank) == RankValue(y.rank);
      RankValueInjective(x.rank, y.rank);
    }
  }

  /** `Compare` gives 0 exactly for two equal cards that have a suit. */
  lemma CompareZeroIffEquals(p: PokerComparer, x: Card, y: Card)
    requires p.Valid()
    ensures p.Compare(x, y) == Wrappers.Ok(0) <==> Equals(x, Wrappers.Some(y)) && x.suit != None
  {
    CompareByKey(p, x, y);
    if p.Compare(x, y) == Wrappers.Ok(0) {
      KeyInjective(x, y);
    }
  }
}

/** Ordering a hand with the comparer, as the exercise's test does with
    `OrderBy`, and the order it expects for its eleven cards. */
module PokerDeck {
  import Wrappers
  import opened Poker
  import opened PokerOrder

  /** Ascending by the comparer's key. */
  predicate Ordered(s: seq<Card>)
  {
    forall i, j :: 0 <= i < j < |s| ==> Key(s[i]) <= Key(s[j])
  }

  /** No two cards of the sequence are a rank tie involving a suitless
      card, the one case the comparer cannot decide. */
  predicate NoSuitlessTies(s: seq<Card>)
  {
    forall i, j :: 0 <= i < |s| && 0 <= j < |s| && i != j ==>
      !(s[i].rank == s[j].rank && (s[i].suit == None || s[j].suit == None))
  }

  lemma InsertOrdered(sorted: seq<Card>, j: int, c: Card)
    requires Ordered(sorted)
    requires 0 <= j <= |sorted|
    requires forall k :: 0 <= k < j ==> Key(sorted[k]) <= Key(c)
    requires j < |sorted| ==> Key(c) < Key(sorted[j])
    ensures Ordered(sorted[..j] + [c] + sorted[j..])
  {
    var t := sorted[..j] + [c] + sorted[j..];
    forall a, b | 0 <= a < b < |t| ensures Key(t[a]) <= Key(t[b]) {
      if b < j {
        assert t[a] == sorted[a] && t[b] == sorted[b];
      } else if b == j {
        assert t[a] == sorted[a];
      } else if a < j {
        assert t[a] == sorted[a] && t[b] == sorted[b - 1];
      } else if a == j {
        assert t[b] == sorted[b - 1];
        assert Key(sorted[j]) <= Key(sorted[b - 1]);
      } else {
        assert t[a] == sorted[a - 1] && t[b] == sorted[b - 1];
      }
    }
  }

  lemma InsertMultiset(sorted: seq<Card>, j: int, c: Card)
    requires 0 <= j <= |sorted|
    ensures multiset(sorted[..j] + [c] + sorted[j..]) == multiset(sorted) + multiset{c}
  {
    assert sorted == sorted[..j] + sorted[j..];
  }

  /** A failed comparison between an already placed card and the next one
      is a suitless rank tie in the input. */
  lemma FailureIsSuitlessTie(cards: seq<Card>, i: int, sorted: seq<Card>)
    requires 0 <= i < |cards|
    requires multiset(sorted) == multiset(cards[..i])
    requires exists k :: 0 <= k < |sorted| && sorted[k].rank == cards[i].rank && (sorted[k].suit == None || cards[i].suit == None)
    ensures !NoSuitlessTies(cards)
  {
    var k :| 0 <= k < |sorted| && sorted[k].rank == cards[i].rank && (sorted[k].suit == None || cards[i].suit == None);
    assert sorted[k] in multiset(sorted);
    assert sorted[k] in cards[..i];
    var m :| 0 <= m < i && cards[..i][m] == sorted[k];
    assert cards[m] == sorted[k];
  }

  /** Inserting the next card at its insertion point keeps the prefix
      ordered and a permutation of the cards seen so far. */
  lemma InsertStep(cards: seq<Card>, i: int, sorted: seq<Card>, j: int)
    requires 0 <= i < |cards|
    requires Ordered(sorted) && multiset(sorted) == multiset(cards[..i])
    requires 0 <= j <= |sorted|
    requires forall k :: 0 <= k < j ==> Key(sorted[k]) <= Key(cards[i])
    requires j < |sorted| ==> Key(cards[i]) < Key(sorted[j])
    ensures Ordered(sorted[..j] + [cards[i]] + sorted[j..])
    ensures multiset(sorted[..j] + [cards[i]] + sorted[j..]) == multiset(cards[..i + 1])
  {
    InsertOrdered(sorted, j, cards[i]);
    InsertMultiset(sorted, j, cards[i]);
    assert cards[..i + 1] == cards[..i] + [cards[i]];
  }

  /** The insertion point of `c` in an ordered sequence: past every card
      the comparer does not put above `c`, before the first one it does. A
      failed comparison is passed on. */
  method InsertionPoint(p: PokerComparer, sorted: seq<Card>, c: Card) returns (r: Wrappers.Result<int, KeyNotFound>)
    requires p.Valid()
    ensures r.Ok? ==> 0 <= r.value <= |sorted|
    ensures r.Ok? ==> forall k :: 0 <= k < r.value ==> Key(sorted[k]) <= Key(c)
    ensures r.Ok? && r.value < |sorted| ==> Key(c) < Key(sorted[r.value])
    ensures r.Err? ==> exists k :: 0 <= k < |sorted| && sorted[k].rank == c.rank && (sorted[k].suit == None || c.suit == None)
  {
    var j := 0;
    while j < |sorted|
      invariant 0 <= j <= |sorted|
      invariant forall k :: 0 <= k < j ==> Key(sorted[k]) <= Key(c)
    {
      var cmp := p.Compare(sorted[j], c);
      CompareByKey(p, sorted[j], c);
      if cmp.Err? {
        return Wrappers.Err(cmp.error);
      }
      if cmp.value > 0 {
        return Wrappers.Ok(j);
      }
      j := j + 1;
    }
    return Wrappers.Ok(j);
  }

  /** `OrderBy(c => c, comparer)`, as an insertion sort that asks the
      comparer and passes on its failure. */
  method OrderBy(p: PokerComparer, cards: seq<Card>) returns (r: Wrappers.Result<seq<Card>, KeyNotFound>)
    requires p.Valid()
    ensures r.Ok? ==> Ordered(r.value) && multiset(r.value) == multiset(cards)
    ensures NoSuitlessTies(cards) ==> r.Ok?
  {
    var sorted: seq<Card> := [];
    var i := 0;
    while i < |cards|
      invariant 0 <= i <= |cards|
      invariant Ordered(sorted)
      invariant multiset(sorted) == multiset(cards[..i])
    {
      var c := cards[i];
      var at := InsertionPoint(p, sorted, c);
      if at.Err? {
        FailureIsSuitlessTie(cards, i, sorted);
        return Wrappers.Err(at.error);
      }
      var j := at.value;
      InsertStep(cards, i, sorted, j);
      sorted := sorted[..j] + [c] + sorted[j..];
      i := i + 1;
    }
    assert cards[..i] == cards;
    return Wrappers.Ok(sorted);
  }

  lemma MultisetTail<T>(a: seq<T>, b: seq<T>)
    requires a != [] && b != [] && a[0] == b[0]
    requires multiset(a) == multiset(b)
    ensures multiset(a[1..]) == multiset(b[1..])
  {
    assert a == [a[0]] + a[1..];
    assert b == [b[0]] + b[1..];
    calc {
      multiset(a[1..]);
      multiset(a) - multiset{a[0]};
      multiset(b) - multiset{b[0]};
      multiset(b[1..]);
    }
  }

  /** A sequence whose neighbours are in strictly increasing key order is
      ordered. */
  lemma {:induction false} OrderedFromNeighbours(s: seq<Card>)
    requires forall i :: 0 <= i < |s| - 1 ==> Key(s[i]) < Key(s[i + 1])
    ensures Ordered(s)
  {
    if |s| > 1 {
      var t := s[1..];
      OrderedFromNeighbours(t);
      forall i, j | 0 <= i < j < |s| ensures Key(s[i]) <= Key(s[j]) {
        if i == 0 {
          if j > 1 {
            assert Key(t[0]) <= Key(t[j - 1]);
          }
        } else {
          assert Key(t[i - 1]) <= Key(t[j - 1]);
        }
      }
    }
  }

  /** Two ordered arrangements of the same cards are the same sequence:
      the key leaves no ties between different cards. */
  lemma {:induction false} OrderedUnique(a: seq<Card>, b: seq<Card>)
    requires Ordered(a) && Ordered(b)
    requires multiset(a) == multiset(b)
    ensures a == b
  {
    if a == [] {
      assert |multiset(b)| == 0;
    } else {
      assert a[0] in multiset(b);
      assert b[0] in multiset(a);
      var i :| 0 <= i < |b| && b[i] == a[0];
      var j :| 0 <= j < |a| && a[j] == b[0];
      assert Key(a[0]) <= Key(a[j]) && Key(b[0]) <= Key(b[i]);
      KeyInjective(a[0], b[0]);
      MultisetTail(a, b);
      OrderedUnique(a[1..], b[1..]);
    }
  }

  /** The eleven cards the test orders. */
  const Deck: seq<Card> := [
    Card(Spades, RankA), Card(Diamonds, Rank5), Card(Spades, Rank4), Card(Hearts, Rank5),
    Card(Diamonds, Rank2), Card(None, Joker), Card(Spades, Rank3), Card(Clubs, Rank7),
    Card(Spades, Rank6), Card(Spades, RankQ), Card(Clubs, Rank5)
  ]

  /** The order the test expects. */
  const Expected: seq<Card> := [
    Card(Spades, Rank4), Card(Clubs, Rank5), Card(Diamonds, Rank5), Card(Hearts, Rank5),
    Card(Spades, Rank6), Card(Clubs, Rank7), Card(Spades, RankQ), Card(Spades, RankA),
    Card(Diamonds, Rank2), Card(Spades, Rank3), Card(None, Joker)
  ]

  /** Every card of the test passes the card constructor's check. */
  lemma DeckCardsValid()
    ensures forall c :: c in Deck ==> NewCard(c.suit, c.rank) == Wrappers.Ok(c)
  {
  }

  lemma DeckHasNoSuitlessTies()
    ensures NoSuitlessTies(Deck)
  {
  }

  lemma ExpectedOrdered()
    ensures Ordered(Expected)
  {
    OrderedFromNeighbours(Expected);
  }

  lemma TailDistinct<T>(a: seq<T>)
    requires Distinct(a) && a != []
    ensures Distinct(a[1..])
    ensures a[0] !in a[1..]
  {
    forall i, j | 0 <= i < j < |a| - 1 ensures a[1..][i] != a[1..][j] {
      assert a[1..][i] == a[i + 1] && a[1..][j] == a[j + 1];
    }
  }

  /** In a sequence without repeats every element occurs once. */
  lemma {:induction false} DistinctCount<T>(a: seq<T>, x: T)
    requires Distinct(a)
    ensures multiset(a)[x] == if x in a then 1 else 0
  {
    if a != [] {
      TailDistinct(a);
      DistinctCount(a[1..], x);
      assert a == [a[0]] + a[1..];
      assert multiset(a) == multiset{a[0]} + multiset(a[1..]);
    }
  }

  /** Two sequences without repeats that hold the same elements are
      permutations of each other. */
  lemma SameElementsPermutation<T>(a: seq<T>, b: seq<T>)
    requires Distinct(a) && Distinct(b)
    requires forall x :: x in a <==> x in b
    ensures multiset(a) == multiset(b)
  {
    forall x ensures multiset(a)[x] == multiset(b)[x] {
      DistinctCount(a, x);
      DistinctCount(b, x);
    }
  }

  /** The expected order holds exactly the test's cards. */
  lemma ExpectedIsPermutation()
    ensures multiset(Expected) == multiset(Deck)
  {
    assert Distinct(Deck);
    assert Distinct(Expected);
    assert forall x :: x in Expected <==> x in Deck;
    SameElementsPermutation(Expected, Deck);
  }

  /** Whatever ordered arrangement of the test's cards a sort produces, it
      is the expected one. */
  lemma DeckSortsToExpected(s: seq<Card>)
    requires Ordered(s)
    requires multiset(s) == multiset(Deck)
    ensures s == Expected
  {
    ExpectedOrdered();
    ExpectedIsPermutation();
    OrderedUnique(s, Expected);
  }

  /** The test: a fresh comparer orders the eleven cards as expected. */
  method ShouldOrderCardsCorrectly() returns (ordered: Wrappers.Result<seq<Card>, KeyNotFound>)
    ensures ordered == Wrappers.Ok(Expected)
  {
    var comparer := new PokerComparer();
    DeckHasNoSuitlessTies();
    ordered := OrderBy(comparer, Deck);
    DeckSortsToExpected(ordered.value);
  }
}
