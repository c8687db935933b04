/**
  Playing cards and the 52-card deck of the blackjack window.

  A card is a (rank, suit) pair with no identity beyond its value. The deck is
  built as the cross product of the four suits and the thirteen ranks, suit by
  suit, and then put into a random order. The random order is not modelled: the
  comparator-driven sort is abstracted into an arbitrary list of position
  exchanges, and every order of the deck is reachable that way.
 */
module Cards {

  datatype Suit = Spades | Hearts | Diamonds | Clubs

  /** The face value of a number card, 2 through 10. */
  type Pip = n: int | 2 <= n <= 10 witness 2

  datatype Rank = Number(pip: Pip) | Jack | Queen | King | Ace

  datatype Card = Card(rank: Rank, suit: Suit)

  /** A hand is the cards of one player, in the order they were drawn. */
  type Hand = seq<Card>

  /** The suits in the order the deck is built from them. */
  const Suits: seq<Suit> := [Spades, Hearts, Diamonds, Clubs]

  /** The ranks in the order each suit's row is built from them. */
  const Ranks: seq<Rank> :=
    [Number(2), Number(3), Number(4), Number(5), Number(6), Number(7), Number(8),
     Number(9), Number(10), Jack, Queen, King, Ace]

  /** One suit's row: every rank of `ranks`, in order, paired with `s`. */
  function Row(ranks: seq<Rank>, s: Suit): seq<Card>
  {
    if |ranks| == 0 then [] else [Card(ranks[0], s)] + Row(ranks[1..], s)
  }

  /** The rows of all suits of `suits`, one after the other. */
  function Product(suits: seq<Suit>, ranks: seq<Rank>): seq<Card>
  {
    if |suits| == 0 then [] else Row(ranks, suits[0]) + Product(suits[1..], ranks)
  }

  /** The deck before it is shuffled. */
  function FullDeck(): seq<Card>
  {
    Product(Suits, Ranks)
  }

  /** A deck of 52 cards holding every card exactly once, in any order. */
  ghost predicate IsFullDeck(d: seq<Card>)
  {
    |d| == 52 && forall c: Card :: multiset(d)[c] == 1
  }

  lemma {:induction false} RowCount(ranks: seq<Rank>, s: Suit, c: Card)
    ensures |Row(ranks, s)| == |ranks|
    ensures multiset(Row(ranks, s))[c] == if c.suit == s then multiset(ranks)[c.rank] else 0
  {
    if |ranks| > 0 {
      RowCount(ranks[1..], s, c);
      assert ranks == [ranks[0]] + ranks[1..];
      assert multiset(ranks) == multiset{ranks[0]} + multiset(ranks[1..]);
    }
  }

  lemma {:induction false} ProductLength(suits: seq<Suit>, ranks: seq<Rank>)
    ensures |Product(suits, ranks)| == |suits| * |ranks|
  {
    if |suits| > 0 {
      RowCount(ranks, suits[0], Card(Ace, Spades));
      ProductLength(suits[1..], ranks);
      assert |suits| * |ranks| == |ranks| + (|suits| - 1) * |ranks|;
    }
  }

  /** Each card occurs in the cross product as often as its suit times as often as its rank. */
  lemma {:induction false} ProductCount(suits: seq<Suit>, ranks: seq<Rank>, c: Card)
    ensures multiset(Product(suits, ranks))[c] == multiset(suits)[c.suit] * multiset(ranks)[c.rank]
  {
    if |suits| > 0 {
      var m := multiset(ranks)[c.rank];
      RowCount(ranks, suits[0], c);
      ProductCount(suits[1..], ranks, c);
      var rest := multiset(suits[1..])[c.suit];
      assert suits == [suits[0]] + suits[1..];
      assert multiset(suits)[c.suit] == (if c.suit == suits[0] then 1 else 0) + rest;
      assert multiset(Product(suits, ranks))[c]
          == (if c.suit == suits[0] then m else 0) + rest * m;
      MulDistributes(if c.suit == suits[0] then 1 else 0, rest, m);
    }
  }

  lemma MulDistributes(a: int, b: int, m: int)
    ensures (a + b) * m == a * m + b * m
  {
  }

  /** Position of a rank in `Ranks`. */
  function RankIndex(r: Rank): nat
  {
    match r
    case Number(n) => n - 2
    case Jack => 9
    case Queen => 10
    case King => 11
    case Ace => 12
  }

  lemma RankIndexFindsRank(r: Rank)
    ensures RankIndex(r) < |Ranks| && Ranks[RankIndex(r)] == r
  {
  }

  /** A sequence without repeated elements holds each of its elements exactly once. */
  lemma {:induction false} DistinctCount<T>(s: seq<T>, x: T)
    requires forall i, j :: 0 <= i < j < |s| ==> s[i] != s[j]
    ensures multiset(s)[x] == if x in s then 1 else 0
  {
    if |s| > 0 {
      DistinctCount(s[1..], x);
      assert s == [s[0]] + s[1..];
      assert s[0] !in s[1..];
    }
  }

  lemma SuitsOnce(s: Suit)
    ensures multiset(Suits)[s] == 1
  {
  }

  lemma RankIndexOfRanks(i: nat)
    requires i < |Ranks|
    ensures RankIndex(Ranks[i]) == i
  {
  }

  lemma RanksDistinct()
    ensures forall i, j :: 0 <= i < j < |Ranks| ==> Ranks[i] != Ranks[j]
  {
    forall i, j | 0 <= i < j < |Ranks| ensures Ranks[i] != Ranks[j] {
      RankIndexOfRanks(i);
      RankIndexOfRanks(j);
    }
  }

  lemma RanksOnce(r: Rank)
    ensures multiset(Ranks)[r] == 1
  {
    RanksDistinct();
    RankIndexFindsRank(r);
    DistinctCount(Ranks, r);
  }

  /** The unshuffled deck has 52 cards, and every card appears in it exactly once. */
  lemma FullDeckExactlyOnce()
    ensures |FullDeck()| == 52
    ensures forall c: Card :: multiset(FullDeck())[c] == 1
  {
    forall c: Card ensures multiset(FullDeck())[c] == 1 {
      ProductCount(Suits, Ranks, c);
      SuitsOnce(c.suit);
      RanksOnce(c.rank);
    }
    ProductLength(Suits, Ranks);
  }

  /** Exchanges the cards at positions `i` and `j`. */
  function Swap(d: seq<Card>, i: nat, j: nat): (r: seq<Card>)
    requires i < |d| && j < |d|
    ensures |r| == |d|
    ensures multiset(r) == multiset(d)
    ensures r[i] == d[j] && r[j] == d[i]
    ensures forall k :: 0 <= k < |d| && k != i && k != j ==> r[k] == d[k]
  {
    d[i := d[j]][j := d[i]]
  }

  /** Every exchange of `swaps` names two positions of a deck of `size` cards. */
  predicate SwapsWithin(swaps: seq<(nat, nat)>, size: nat)
  {
    forall k :: 0 <= k < |swaps| ==> swaps[k].0 < size && swaps[k].1 < size
  }

  /** Applies the exchanges of `swaps` in order: the effect of the randomised sort. */
  function Shuffle(d: seq<Card>, swaps: seq<(nat, nat)>): (r: seq<Card>)
    requires SwapsWithin(swaps, |d|)
    ensures |r| == |d|
    ensures multiset(r) == multiset(d)
    decreases |swaps|
  {
    if |swaps| == 0 then d else Shuffle(Swap(d, swaps[0].0, swaps[0].1), swaps[1..])
  }

  /** Exchanges within the first `|a|` positions leave a card after them where it is. */
  lemma {:induction false} ShuffleKeepsLast(a: seq<Card>, x: Card, swaps: seq<(nat, nat)>)
    requires SwapsWithin(swaps, |a|)
    ensures SwapsWithin(swaps, |a| + 1)
    ensures Shuffle(a + [x], swaps) == Shuffle(a, swaps) + [x]
    decreases |swaps|
  {
    if |swaps| > 0 {
      var i, j := swaps[0].0, swaps[0].1;
      assert Swap(a + [x], i, j) == Swap(a, i, j) + [x];
      assert SwapsWithin(swaps[1..], |a|) by {
        forall k | 0 <= k < |swaps| - 1 ensures swaps[1..][k] == swaps[k + 1] {
        }
      }
      ShuffleKeepsLast(Swap(a, i, j), x, swaps[1..]);
    }
  }

  /** A list of exchanges that begins with (i, j) first exchanges positions i and j. */
  lemma ShuffleFirstSwap(src: seq<Card>, i: nat, j: nat, rest: seq<(nat, nat)>)
    requires i < |src| && j < |src| && SwapsWithin(rest, |src|)
    ensures SwapsWithin([(i, j)] + rest, |src|)
    ensures Shuffle(src, [(i, j)] + rest) == Shuffle(Swap(src, i, j), rest)
  {
    var swaps := [(i, j)] + rest;
    assert swaps[1..] == rest;
    assert forall k :: 0 < k < |swaps| ==> swaps[k] == rest[k - 1];
  }

  /** Removing the same last card from two decks with the same cards leaves the same cards. */
  lemma DropLastSameCards(a: seq<Card>, b: seq<Card>, x: Card)
    requires multiset(a + [x]) == multiset(b + [x])
    ensures multiset(a) == multiset(b)
  {
    assert multiset(a + [x]) == multiset(a) + multiset{x};
    assert multiset(b + [x]) == multiset(b) + multiset{x};
    calc {
      multiset(a);
      (multiset(a) + multiset{x}) - multiset{x};
      (multiset(b) + multiset{x}) - multiset{x};
      multiset(b);
    }
  }

  /**
    Exchanging position `i` with the last position, which brings card `x` there,
    and then shuffling only the positions before it leaves `x` last.
   */
  lemma ShuffleToLast(src: seq<Card>, i: nat, a: seq<Card>, x: Card, rest: seq<(nat, nat)>)
    requires i < |src| && |a| + 1 == |src|
    requires Swap(src, i, |src| - 1) == a + [x]
    requires SwapsWithin(rest, |a|)
    ensures SwapsWithin([(i, |src| - 1)] + rest, |src|)
    ensures Shuffle(src, [(i, |src| - 1)] + rest) == Shuffle(a, rest) + [x]
  {
    ShuffleKeepsLast(a, x, rest);
    ShuffleFirstSwap(src, i, |src| - 1, rest);
  }

  /** A card the deck holds sits at some position of it. */
  lemma FindCard(src: seq<Card>, x: Card) returns (i: nat)
    requires x in multiset(src)
    ensures i < |src| && src[i] == x
  {
    assert x in src;
    i :| 0 <= i < |src| && src[i] == x;
  }

  /**
    When `src` and `d` hold the same cards, one exchange brings the last card of
    `d` to the end of `src`, and what comes before it holds the same cards as
    the rest of `d`.
   */
  lemma BringLastCard(src: seq<Card>, d: seq<Card>) returns (i: nat, a: seq<Card>)
    requires multiset(src) == multiset(d) && |d| > 0
    ensures i < |src| && |a| + 1 == |src| == |d|
    ensures Swap(src, i, |src| - 1) == a + [d[|d| - 1]]
    ensures multiset(a) == multiset(d[..|d| - 1])
  {
    assert |src| == |multiset(src)| == |multiset(d)| == |d|;
    var n := |d|;
    var x, b := d[n - 1], d[..n - 1];
    i := FindCard(src, x);
    var moved := Swap(src, i, n - 1);
    a := moved[..n - 1];
    assert moved == a + [x];
    assert d == b + [x];
    DropLastSameCards(a, b, x);
  }

  /**
    A list of exchanges that turns `src` into `d`: bring the last card of `d`
    to the end, then arrange the cards before it.
   */
  lemma {:induction false} ExchangesTo(src: seq<Card>, d: seq<Card>) returns (swaps: seq<(nat, nat)>)
    requires multiset(src) == multiset(d)
    ensures SwapsWithin(swaps, |src|) && Shuffle(src, swaps) == d
    decreases |d|
  {
    if |d| == 0 {
      assert |src| == |multiset(src)| == 0;
      swaps := [];
    } else {
      var n := |d|;
      var x, b := d[n - 1], d[..n - 1];
      assert d == b + [x];
      var i, a := BringLastCard(src, d);
      var rest := ExchangesTo(a, b);
      ShuffleToLast(src, i, a, x, rest);
      swaps := [(i, n - 1)] + rest;
    }
  }

  /**
    Every order of a deck can be produced by some list of exchanges, so the
    exchanges cover every outcome the randomised sort can have.
   */
  lemma ShuffleReachesEveryOrder(src: seq<Card>, d: seq<Card>)
    requires multiset(src) == multiset(d)
    ensures exists swaps :: SwapsWithin(swaps, |src|) && Shuffle(src, swaps) == d
  {
    var swaps := ExchangesTo(src, d);
  }

  /** Builds the full deck and puts it into the order chosen by `swaps`. */
  function NewDeck(swaps: seq<(nat, nat)>): (r: seq<Card>)
    requires SwapsWithin(swaps, 52)
    ensures IsFullDeck(r)
    ensures multiset(r) == multiset(FullDeck())
  {
    FullDeckExactlyOnce();
    Shuffle(FullDeck(), swaps)
  }

  /** Two full decks hold the same cards. */
  lemma FullDecksSameCards(a: seq<Card>, b: seq<Card>)
    requires IsFullDeck(a) && IsFullDeck(b)
    ensures multiset(a) == multiset(b)
  {
    assert forall c: Card :: multiset(a)[c] == multiset(b)[c];
  }

  /** Every order of the 52 cards is the outcome of `NewDeck` for some list of exchanges. */
  lemma NewDeckReachesEveryFullDeck(d: seq<Card>)
    requires IsFullDeck(d)
    ensures exists swaps :: SwapsWithin(swaps, 52) && NewDeck(swaps) == d
  {
    var full := FullDeck();
    FullDeckExactlyOnce();
    FullDecksSameCards(full, d);
    var swaps := ExchangesTo(full, d);
    assert NewDeck(swaps) == d;
  }
}
