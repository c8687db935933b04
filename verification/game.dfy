/**
  The blackjack round: the deck, the player's and the dealer's hands, whether a
  round is in progress, and the status line, with the three button handlers
  (start, hit, stand) as transitions from one round state to the next.

  Cards are drawn from the end of the deck. The dealer is dealt a single card
  at the start and draws the rest only when the player stands.
 */
module Game {
  import opened Cards
  import opened Scoring

  /** What the status line says. */
  datatype Status =
    | PressStart   // before the first round
    | YourTurn     // a round is in progress
    | Blackjack    // the player reached 21
    | Over21       // the player went over 21
    | YouWin       // after standing: the dealer went over 21 or scored less
    | Draw         // after standing: equal scores
    | DealerWins   // after standing: the dealer scored more

  /** The text the page shows for each status. */
  function StatusText(st: Status): string
  {
    match st
    case PressStart => "Press \"Start\" to begin."
    case YourTurn => "Your turn"
    case Blackjack => "Blackjack! You win! :)"
    case Over21 => "Over 21, you lose. :("
    case YouWin => "You win!"
    case Draw => "Draw."
    case DealerWins => "Dealer wins."
  }

  /** The status line tells every status apart: no two statuses share a text, and none is empty. */
  lemma StatusTextsDistinct(a: Status, b: Status)
    ensures |StatusText(a)| > 0
    ensures StatusText(a) == StatusText(b) <==> a == b
  {
  }

  /** The state the page keeps between button presses. */
  datatype Round = Round(deck: seq<Card>, player: Hand, dealer: Hand, active: bool, status: Status)

  /** Which of the three buttons can be pressed. */
  datatype Buttons = Buttons(startEnabled: bool, hitEnabled: bool, standEnabled: bool)

  /**
    The state after the page has loaded: no cards dealt, no round in progress,
    and the status asks for Start.
   */
  function Initial(): (r: Round)
    ensures |r.deck| == 0 && |r.player| == 0 && |r.dealer| == 0
    ensures !r.active && r.status == PressStart
  {
    Round([], [], [], false, PressStart)
  }

  /** Start is offered between rounds, Hit and Stand during one. */
  function UpdateButtons(active: bool): (b: Buttons)
    ensures b.startEnabled <==> !active
    ensures b.hitEnabled <==> active
    ensures b.standEnabled <==> active
  {
    if !active then Buttons(true, false, false) else Buttons(false, true, true)
  }

  /** The cards of `s` in the order successive pops take them: the last one first. */
  function PopOrder(s: seq<Card>): seq<Card>
  {
    if |s| == 0 then [] else [s[|s| - 1]] + PopOrder(s[..|s| - 1])
  }

  /** Popping every card takes exactly the cards of the sequence. */
  lemma {:induction false} PopOrderPermutes(s: seq<Card>)
    ensures |PopOrder(s)| == |s|
    ensures multiset(PopOrder(s)) == multiset(s)
  {
    if |s| > 0 {
      PopOrderPermutes(s[..|s| - 1]);
      assert s == s[..|s| - 1] + [s[|s| - 1]];
    }
  }

  /** `deck.pop()`: the deck without its last card, and that card. */
  function Pop(deck: seq<Card>): (r: (seq<Card>, Card))
    requires |deck| > 0
    ensures r.0 + [r.1] == deck
  {
    (deck[..|deck| - 1], deck[|deck| - 1])
  }

  /**
    Start button: the player takes two cards off the shuffled deck, then the
    dealer one. A player who already has 21 has won and the round is over;
    otherwise it is the player's turn.
   */
  function Deal(shuffled: seq<Card>): (r: Round)
    requires IsFullDeck(shuffled)
    ensures |r.deck| == 49 && |r.player| == 2 && |r.dealer| == 1
    ensures r.deck == shuffled[..49]
    ensures r.player == [shuffled[51], shuffled[50]] && r.dealer == [shuffled[49]]
    ensures r.deck + r.dealer + PopOrder(r.player) == shuffled
    ensures !r.active <==> Value(r.player) == 21
    ensures r.status == if r.active then YourTurn else Blackjack
  {
    var first := Pop(shuffled);
    var second := Pop(first.0);
    var third := Pop(second.0);
    var player := [first.1, second.1];
    var dealer := [third.1];
    assert first == (shuffled[..51], shuffled[51]);
    assert shuffled[..51][..50] == shuffled[..50];
    assert second == (shuffled[..50], shuffled[50]);
    assert shuffled[..50][..49] == shuffled[..49];
    assert third == (shuffled[..49], shuffled[49]);
    assert shuffled == shuffled[..49] + [shuffled[49], shuffled[50], shuffled[51]];
    assert PopOrder(player) == [second.1, first.1] by {
      assert player[..1] == [first.1];
      assert [first.1][..0] == [];
      assert PopOrder([first.1]) == [first.1];
    }
    if Value(player) == 21 then Round(third.0, player, dealer, false, Blackjack)
    else Round(third.0, player, dealer, true, YourTurn)
  }

  /**
    Hit button: outside a round nothing happens. During one the player takes
    the deck's last card; 21 wins, over 21 loses, anything less keeps the
    round going.
   */
  function Hit(s: Round): (r: Round)
    requires s.active ==> |s.deck| > 0
    ensures !s.active ==> r == s
    ensures s.active ==> |r.player| == |s.player| + 1
    ensures s.active ==> r.player == s.player + [r.player[|s.player|]]
    ensures s.active ==> r.deck + [r.player[|s.player|]] == s.deck
    ensures s.active ==> r.dealer == s.dealer
    ensures s.active ==> (r.active <==> Value(r.player) < 21)
    ensures s.active && Value(r.player) == 21 ==> r.status == Blackjack
    ensures s.active && Value(r.player) > 21 ==> r.status == Over21
    ensures s.active && Value(r.player) < 21 ==> r.status == s.status
  {
    if !s.active then s
    else
      var drawn := Pop(s.deck);
      var player := s.player + [drawn.1];
      var v := Value(player);
      if v == 21 then s.(deck := drawn.0, player := player, active := false, status := Blackjack)
      else if v > 21 then s.(deck := drawn.0, player := player, active := false, status := Over21)
      else s.(deck := drawn.0, player := player)
  }

  /** The deck holds enough cards for the dealer to draw up to 17 or more. */
  predicate DealerCanFinish(deck: seq<Card>, dealer: Hand)
    decreases |deck|
  {
    Value(dealer) >= 17
    || (|deck| > 0 && DealerCanFinish(deck[..|deck| - 1], dealer + [deck[|deck| - 1]]))
  }

  /** Popping a sequence empties it from the end, so its first card comes out last. */
  lemma {:induction false} PopOrderFirstLast(c: Card, s: seq<Card>)
    ensures PopOrder([c] + s) == PopOrder(s) + [c]
  {
    if |s| > 0 {
      var cs := [c] + s;
      var init := s[..|s| - 1];
      assert cs[..|cs| - 1] == [c] + init;
      assert cs[|cs| - 1] == s[|s| - 1];
      PopOrderFirstLast(c, init);
      calc {
        PopOrder(cs);
        [s[|s| - 1]] + PopOrder([c] + init);
        [s[|s| - 1]] + (PopOrder(init) + [c]);
        ([s[|s| - 1]] + PopOrder(init)) + [c];
        PopOrder(s) + [c];
      }
    } else {
      assert [c] + s == [c];
      assert [c][..0] == [];
    }
  }

  /**
    The dealer's loop: draw from the end of the deck while the hand is worth
    less than 17. The result is the remaining deck and the dealer's final hand:
    the hand extended, in pop order, by the cards taken off the deck, and the
    first such extension that is worth 17 or more.
   */
  function DealerPlay(deck: seq<Card>, dealer: Hand): (r: (seq<Card>, Hand))
    requires DealerCanFinish(deck, dealer)
    ensures Value(r.1) >= 17
    ensures |dealer| <= |r.1| && r.1[..|dealer|] == dealer
    ensures r.0 + PopOrder(r.1[|dealer|..]) == deck
    ensures forall k {:trigger Value(r.1[..k])} :: |dealer| <= k < |r.1| ==> Value(r.1[..k]) < 17
    decreases |deck|
  {
    if Value(dealer) >= 17 then
      assert dealer[|dealer|..] == [];
      (deck, dealer)
    else
      var drawn := Pop(deck);
      var r := DealerPlay(drawn.0, dealer + [drawn.1]);
      DealerDrawStep(deck, dealer, r.0, r.1);
      DealerStopStep(dealer, r.1);
      r
  }

  /** One step of the dealer's loop, lifted to the whole draw sequence: the cards drawn. */
  lemma DealerDrawStep(deck: seq<Card>, dealer: Hand, rest: seq<Card>, final: Hand)
    requires |deck| > 0
    requires |dealer| + 1 <= |final| && final[..|dealer| + 1] == dealer + [deck[|deck| - 1]]
    requires rest + PopOrder(final[|dealer| + 1..]) == deck[..|deck| - 1]
    ensures final[..|dealer|] == dealer
    ensures rest + PopOrder(final[|dealer|..]) == deck
  {
    var c := deck[|deck| - 1];
    var n := |dealer|;
    assert final[..n] == final[..n + 1][..n] == (dealer + [c])[..n] == dealer;
    assert final[n] == final[..n + 1][n] == c;
    assert final[n..] == [c] + final[n + 1..];
    PopOrderFirstLast(c, final[n + 1..]);
    calc {
      rest + PopOrder(final[n..]);
      rest + (PopOrder(final[n + 1..]) + [c]);
      (rest + PopOrder(final[n + 1..])) + [c];
      deck[..|deck| - 1] + [c];
      deck;
    }
  }

  /** One step of the dealer's loop, lifted to the whole draw sequence: where it stops. */
  lemma DealerStopStep(dealer: Hand, final: Hand)
    requires Value(dealer) < 17
    requires |dealer| < |final| && final[..|dealer|] == dealer
    requires forall k {:trigger Value(final[..k])} :: |dealer| + 1 <= k < |final| ==> Value(final[..k]) < 17
    ensures forall k {:trigger Value(final[..k])} :: |dealer| <= k < |final| ==> Value(final[..k]) < 17
  {
    forall k | |dealer| <= k < |final|
      ensures Value(final[..k]) < 17
    {
      if k == |dealer| {
        assert final[..k] == dealer;
      }
    }
  }

  /**
    The result once the dealer has finished, from the player's score `p` and
    the dealer's score `d`.
   */
  function Outcome(p: int, d: int): (st: Status)
    ensures st == YouWin <==> d > 21 || p > d
    ensures st == Draw <==> d <= 21 && p == d
    ensures st == DealerWins <==> d <= 21 && p < d
  {
    if d > 21 || p > d then YouWin else if p == d then Draw else DealerWins
  }

  /**
    Stand button: outside a round nothing happens. During one the dealer draws
    to 17 or more, the player's hand is left alone, and the round is decided:
    the player wins when the dealer is over 21 or scores less, draws on equal
    scores, and loses otherwise.
   */
  function Stand(s: Round): (r: Round)
    requires s.active ==> DealerCanFinish(s.deck, s.dealer)
    ensures !s.active ==> r == s
    ensures s.active ==> !r.active && r.player == s.player && Value(r.dealer) >= 17
    ensures s.active ==> |s.dealer| <= |r.dealer| && r.dealer[..|s.dealer|] == s.dealer
    ensures s.active ==> r.deck + PopOrder(r.dealer[|s.dealer|..]) == s.deck
    ensures s.active ==>
      forall k {:trigger Value(r.dealer[..k])} :: |s.dealer| <= k < |r.dealer| ==> Value(r.dealer[..k]) < 17
    ensures s.active ==>
      (r.status == YouWin <==> Value(r.dealer) > 21 || Value(r.player) > Value(r.dealer))
    ensures s.active ==>
      (r.status == Draw <==> Value(r.dealer) <= 21 && Value(r.player) == Value(r.dealer))
    ensures s.active ==>
      (r.status == DealerWins <==> Value(r.dealer) <= 21 && Value(r.player) < Value(r.dealer))
  {
    if !s.active then s
    else
      var played := DealerPlay(s.deck, s.dealer);
      var outcome := Outcome(Value(s.player), Value(played.1));
      s.(deck := played.0, dealer := played.1, active := false, status := outcome)
  }

  /** The buttons offered are exactly the ones whose handler would change the state. */
  lemma ButtonsMatchMoves(s: Round)
    requires s.active ==> |s.deck| > 0 && DealerCanFinish(s.deck, s.dealer)
    ensures UpdateButtons(s.active).hitEnabled <==> Hit(s) != s
    ensures UpdateButtons(s.active).standEnabled <==> Stand(s) != s
    ensures UpdateButtons(s.active).startEnabled <==> !s.active
  {
    if s.active {
      assert |Hit(s).player| != |s.player|;
      assert Stand(s).active != s.active;
    }
  }
}
