/**
  The value of a blackjack hand (`getValue`).

  Every card is first counted at its soft value: a number card at its face
  value, a court card at 10 and an Ace at 11. Then, while the total is over 21
  and some Ace is still counted at 11, one such Ace is counted at 1 instead,
  which takes 10 off the total.
 */
module Scoring {
  import opened Cards

  /** What a card adds to the total before any Ace is downgraded. */
  function SoftPoints(c: Card): nat
  {
    match c.rank
    case Number(n) => n
    case Jack => 10
    case Queen => 10
    case King => 10
    case Ace => 11
  }

  /** What a card adds to the total when every Ace counts 1. */
  function HardPoints(c: Card): nat
  {
    if c.rank == Ace then 1 else SoftPoints(c)
  }

  /** The total with every Ace counted at 11, summed left to right. */
  function SoftTotal(hand: Hand): nat
  {
    if |hand| == 0 then 0 else SoftTotal(hand[..|hand| - 1]) + SoftPoints(hand[|hand| - 1])
  }

  /** The total with every Ace counted at 1. */
  function HardTotal(hand: Hand): nat
  {
    if |hand| == 0 then 0 else HardTotal(hand[..|hand| - 1]) + HardPoints(hand[|hand| - 1])
  }

  /** The number of Aces in the hand. */
  function AceCount(hand: Hand): nat
  {
    if |hand| == 0 then 0
    else AceCount(hand[..|hand| - 1]) + (if hand[|hand| - 1].rank == Ace then 1 else 0)
  }

  /** The downgrade loop: while `total` is over 21 and `aces` Aces still count 11, count one at 1. */
  function Downgrade(total: int, aces: nat): int
    decreases aces
  {
    if total > 21 && aces > 0 then Downgrade(total - 10, aces - 1) else total
  }

  /** How many Aces the downgrade loop counts at 1. */
  function Downgraded(total: int, aces: nat): nat
    decreases aces
  {
    if total > 21 && aces > 0 then 1 + Downgraded(total - 10, aces - 1) else 0
  }

  /** The value of a hand, as the game scores it: its best total. */
  function Value(hand: Hand): (v: int)
    ensures IsBestTotal(hand, v)
  {
    var soft, aces := SoftTotal(hand), AceCount(hand);
    DowngradeSteps(soft, aces);
    SoftIsHardPlusAces(hand);
    assert soft - Downgrade(soft, aces) == 10 * Downgraded(soft, aces);
    Downgrade(soft, aces)
  }

  /**
    The loop takes 10 off for each Ace it downgrades, downgrades at most all of
    them, stays over 21 only once every Ace counts 1, and never takes a step
    that was not needed: a total it lowered is above 11.
   */
  lemma {:induction false} DowngradeSteps(total: int, aces: nat)
    ensures Downgraded(total, aces) <= aces
    ensures Downgrade(total, aces) == total - 10 * Downgraded(total, aces)
    ensures Downgrade(total, aces) > 21 ==> Downgraded(total, aces) == aces
    ensures Downgrade(total, aces) < total ==> Downgrade(total, aces) > 11
    decreases aces
  {
    if total > 21 && aces > 0 {
      DowngradeSteps(total - 10, aces - 1);
    }
  }

  lemma {:induction false} SoftIsHardPlusAces(hand: Hand)
    ensures SoftTotal(hand) == HardTotal(hand) + 10 * AceCount(hand)
  {
    if |hand| > 0 {
      SoftIsHardPlusAces(hand[..|hand| - 1]);
    }
  }

  /** Every card counts at least 1, so the hard total is at least the number of cards. */
  lemma {:induction false} HardTotalAtLeastCount(hand: Hand)
    ensures HardTotal(hand) >= |hand|
  {
    if |hand| > 0 {
      HardTotalAtLeastCount(hand[..|hand| - 1]);
    }
  }

  /** The value is the soft total less 10 for each Ace the loop downgrades. */
  lemma ValueDowngradesAces(hand: Hand)
    ensures Downgraded(SoftTotal(hand), AceCount(hand)) <= AceCount(hand)
    ensures Value(hand) == SoftTotal(hand) - 10 * Downgraded(SoftTotal(hand), AceCount(hand))
    ensures Value(hand) > 21 ==> Value(hand) == HardTotal(hand)
  {
    DowngradeSteps(SoftTotal(hand), AceCount(hand));
    SoftIsHardPlusAces(hand);
  }

  /**
    `v` is the best total of the hand: one of the totals reachable by counting
    some Aces at 1 (between the hard and the soft total, a multiple of 10 below
    the soft total); over 21 only when even the hard total is; and, when not
    over 21, no higher reachable total is also not over 21.
   */
  ghost predicate IsBestTotal(hand: Hand, v: int)
  {
    && HardTotal(hand) <= v <= SoftTotal(hand)
    && (SoftTotal(hand) - v) % 10 == 0
    && (v > 21 ==> v == HardTotal(hand))
    && (v <= 21 ==> v == SoftTotal(hand) || v + 10 > 21)
  }

  /** Only one total of a hand is its best total. */
  lemma BestTotalIsUnique(hand: Hand, v: int, w: int)
    requires IsBestTotal(hand, v) && IsBestTotal(hand, w)
    ensures v == w
  {
    var soft := SoftTotal(hand);
    var a, b := soft - v, soft - w;
    assert a == 10 * (a / 10);
    assert b == 10 * (b / 10);
  }

  /** `getValue` computes exactly the best total of the hand, and nothing else is it. */
  lemma ValueCharacterized(hand: Hand, v: int)
    ensures IsBestTotal(hand, v) <==> v == Value(hand)
  {
    if IsBestTotal(hand, v) {
      BestTotalIsUnique(hand, v, Value(hand));
    }
  }

  /** Two cards never score over 21: the only soft 22 is two Aces, which score 12. */
  lemma TwoCardsNeverBust(a: Card, b: Card)
    ensures Value([a, b]) <= 21
  {
    var hand := [a, b];
    assert hand[..1] == [a];
    assert [a][..0] == [];
    assert SoftTotal([a]) == SoftPoints(a);
    assert AceCount([a]) == if a.rank == Ace then 1 else 0;
    if a.rank == Ace && b.rank == Ace {
      assert Value(hand) == Downgrade(22, 2) == 12;
    }
  }

  /** The worked examples: two Aces score 12, King and Ace 21, King, Queen and Ace 21. */
  lemma ValueExamples()
    ensures Value([Card(Ace, Spades), Card(Ace, Hearts)]) == 12
    ensures Value([Card(King, Clubs), Card(Ace, Diamonds)]) == 21
    ensures Value([Card(King, Spades), Card(Queen, Hearts), Card(Ace, Clubs)]) == 21
  {
    var aa := [Card(Ace, Spades), Card(Ace, Hearts)];
    assert aa[..1] == [Card(Ace, Spades)];
    assert SoftTotal(aa) == 22 && AceCount(aa) == 2;
    var ka := [Card(King, Clubs), Card(Ace, Diamonds)];
    assert ka[..1] == [Card(King, Clubs)];
    assert SoftTotal(ka) == 21 && AceCount(ka) == 1;
    var kqa := [Card(King, Spades), Card(Queen, Hearts), Card(Ace, Clubs)];
    assert kqa[..2] == [Card(King, Spades), Card(Queen, Hearts)];
    assert kqa[..2][..1] == [Card(King, Spades)];
    assert SoftTotal(kqa) == 31 && AceCount(kqa) == 1;
  }
}
