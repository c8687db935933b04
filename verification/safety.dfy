/**
  What holds in every state the page can reach by pressing its buttons.

  Once a round has been dealt, the deck and the two hands together are always
  the 52 cards, each once. While a round is in progress the player is below 21
  and the dealer holds one card. From this it follows that every `pop` the
  handlers perform finds a card: the deck never runs out, although nothing in
  the handlers checks for it.
 */
module Safety {
  import opened Cards
  import opened Scoring
  import opened Game

  /** No card has been created or lost: deck and hands together are the full deck. */
  ghost predicate Conserved(s: Round)
  {
    IsFullDeck(s.deck + s.player + s.dealer)
  }

  /** The invariant of every reachable state. */
  ghost predicate Valid(s: Round)
  {
    && (s.active <==> s.status == YourTurn)
    && (s.status != PressStart ==> Conserved(s))
    && (s.active ==> Value(s.player) < 21 && |s.dealer| == 1)
  }

  /** A button press. `Start` carries the exchanges the shuffle makes. */
  datatype Action = Start(swaps: seq<(nat, nat)>) | PressHit | PressStand

  /** The shuffle of every `Start` in `actions` stays within the 52 positions of the deck. */
  ghost predicate WellFormed(actions: seq<Action>)
  {
    forall i :: 0 <= i < |actions| ==> actions[i].Start? ==> SwapsWithin(actions[i].swaps, 52)
  }

  lemma InitialValid()
    ensures Valid(Initial()) && !Initial().active
  {
  }

  /** A fresh deal conserves the cards and leaves a valid state. */
  lemma DealValid(shuffled: seq<Card>)
    requires IsFullDeck(shuffled)
    ensures Conserved(Deal(shuffled))
    ensures Valid(Deal(shuffled))
  {
    var r := Deal(shuffled);
    PopOrderPermutes(r.player);
    assert multiset(r.deck + r.player + r.dealer) == multiset(r.deck + r.dealer + PopOrder(r.player));
    TwoCardsNeverBust(r.player[0], r.player[1]);
    assert r.player == [r.player[0], r.player[1]];
  }

  /** During a valid round the player holds at most 20 cards. */
  lemma PlayerHandSmall(s: Round)
    requires Valid(s) && s.active
    ensures |s.player| <= 20
  {
    HardTotalAtLeastCount(s.player);
  }

  /** During a valid round the deck still has at least 31 cards, so Hit can pop. */
  lemma HitCanDraw(s: Round)
    requires Valid(s)
    ensures s.active ==> |s.deck| >= 31
  {
    if s.active {
      PlayerHandSmall(s);
    }
  }

  /**
    The dealer can always finish when the hard totals of the dealer's hand and
    the deck add up to 17: each draw moves hard points from the deck to the
    hand, and the hand is worth at least its hard total.
   */
  lemma {:induction false} DealerFinishesFromHardPoints(deck: seq<Card>, dealer: Hand)
    requires HardTotal(deck) + HardTotal(dealer) >= 17
    ensures DealerCanFinish(deck, dealer)
    decreases |deck|
  {
    if Value(dealer) < 17 {
      assert |deck| > 0;
      var c := deck[|deck| - 1];
      var more := dealer + [c];
      assert more[..|more| - 1] == dealer;
      assert HardTotal(more) == HardTotal(dealer) + HardPoints(c);
      DealerFinishesFromHardPoints(deck[..|deck| - 1], more);
    }
  }

  /** During a valid round the deck holds enough cards for the dealer's loop. */
  lemma StandCanDraw(s: Round)
    requires Valid(s)
    ensures s.active ==> DealerCanFinish(s.deck, s.dealer)
  {
    if s.active {
      PlayerHandSmall(s);
      HardTotalAtLeastCount(s.deck);
      HardTotalAtLeastCount(s.dealer);
      DealerFinishesFromHardPoints(s.deck, s.dealer);
    }
  }

  /** Hit moves a card from the deck to the player's hand and so conserves the cards. */
  lemma HitConserves(s: Round)
    requires s.active ==> |s.deck| > 0
    requires Conserved(s)
    ensures Conserved(Hit(s))
  {
    if s.active {
      var r := Hit(s);
      var c := r.player[|s.player|];
      assert multiset(r.deck + r.player + r.dealer) == multiset(s.deck + s.player + s.dealer) by {
        assert s.deck == r.deck + [c];
        assert r.player == s.player + [c];
      }
    }
  }

  /** Stand moves cards from the deck to the dealer's hand and so conserves the cards. */
  lemma StandConserves(s: Round)
    requires s.active ==> DealerCanFinish(s.deck, s.dealer)
    requires Conserved(s)
    ensures Conserved(Stand(s))
  {
    if s.active {
      var r := Stand(s);
      var drawn := r.dealer[|s.dealer|..];
      PopOrderPermutes(drawn);
      assert r.dealer == s.dealer + drawn;
      assert multiset(r.deck + r.player + r.dealer) == multiset(s.deck + s.player + s.dealer) by {
        assert s.deck == r.deck + PopOrder(drawn);
      }
    }
  }

  lemma HitValid(s: Round)
    requires Valid(s)
    ensures s.active ==> |s.deck| > 0
    ensures Valid(Hit(s))
  {
    HitCanDraw(s);
    if s.status != PressStart {
      HitConserves(s);
    }
  }

  lemma StandValid(s: Round)
    requires Valid(s)
    ensures s.active ==> DealerCanFinish(s.deck, s.dealer)
    ensures Valid(Stand(s))
  {
    StandCanDraw(s);
    if s.status != PressStart {
      StandConserves(s);
    }
  }

  /** One button press, from a valid state to a valid state. */
  function Step(s: Round, a: Action): (r: Round)
    requires Valid(s)
    requires a.Start? ==> SwapsWithin(a.swaps, 52)
    ensures Valid(r)
    ensures a.Start? ==> Conserved(r) && |r.deck| == 49
    ensures !a.Start? && !s.active ==> r == s
  {
    match a
    case Start(swaps) =>
      var shuffled := NewDeck(swaps);
      DealValid(shuffled);
      Deal(shuffled)
    case PressHit =>
      HitValid(s);
      Hit(s)
    case PressStand =>
      StandValid(s);
      Stand(s)
  }

  /**
    Any sequence of button presses from a valid state: every press finds the
    cards it draws, and the state stays valid.
   */
  function Run(s: Round, actions: seq<Action>): (r: Round)
    requires Valid(s)
    requires WellFormed(actions)
    ensures Valid(r)
    decreases |actions|
  {
    if |actions| == 0 then s
    else
      assert WellFormed(actions[1..]) by {
        forall i | 0 <= i < |actions| - 1 ensures actions[1..][i] == actions[i + 1] {
        }
      }
      Run(Step(s, actions[0]), actions[1..])
  }
}
