/**
 * The round engine of the card game. The page keeps its state in three
 * globals (the two scores and the round flag) and in the DOM: which container
 * holds each card element, and the `data-owner` and `data-value` attributes of
 * each card. `Game` holds the same state in fields. Its methods are the
 * steps of a round in the order the page chains them with timers: a click
 * (`Click`, which calls `PlayPlayerCard`), `CpuPlay`, `EvaluateRound`, and
 * the delayed discard (`DiscardPlayed`); `PlayRound` runs that chain from
 * one click to the end of the round. `ResetGame` is the New Game button.
 */
module RoundEngine {
  import opened Cards
  import opened Zones

  /** What `evaluateRound` found in the play area and did about it. */
  datatype Evaluation =
    | /** A player card or a CPU card was missing: nothing scored, nothing moved. */
      Aborted
    | /** A value did not parse: both cards were discarded unscored. */
      InvalidValue(playerCard: CardId, cpuCard: CardId)
    | /** Both values parsed: the round was scored; the discard is still due. */
      Resolved(playerCard: CardId, cpuCard: CardId, playerValue: int, cpuValue: int, winner: Winner)

  /**
   * `assignOwners`: each of the n cards is the player's when it starts in
   * the player's hand and the CPU's otherwise.
   */
  method AssignOwners(playerCards: seq<CardId>, n: nat) returns (owner: seq<Owner>)
    ensures |owner| == n
    ensures forall x :: 0 <= x < n ==> (owner[x] == Player <==> x in playerCards)
  {
    owner := [];
    while |owner| < n
      invariant |owner| <= n
      invariant forall x :: 0 <= x < |owner| ==> (owner[x] == Player <==> x in playerCards)
    {
      owner := owner + [if |owner| in playerCards then Player else Cpu];
    }
  }

  class Game {
    /** `data-owner` of each card, fixed when the page loads. */
    const owner: seq<Owner>
    /** `data-value` of each card; None where it is missing or does not parse. */
    var values: seq<Option<int>>
    var playerScore: nat
    var opponentScore: nat
    var isRoundActive: bool
    var playerHand: seq<CardId>
    var cpuHand: seq<CardId>
    var playArea: seq<CardId>
    /** The hidden internal discard container. */
    var discard: seq<CardId>

    function Table(): Layout
      reads this`playerHand, this`cpuHand, this`playArea, this`discard
    {
      Layout(playerHand, cpuHand, playArea, discard)
    }

    /**
     * The containers hold every card exactly once, and each hand holds only
     * its owner's cards.
     */
    ghost predicate Valid()
      reads this`values, this`playerHand, this`cpuHand, this`playArea, this`discard
    {
      && |values| == |owner|
      && Sound(Table(), owner)
    }

    /** Every card holds a value drawn from 1 .. 10. */
    predicate ValuesInRange()
      reads this`values
    {
      forall i :: 0 <= i < |values| ==> values[i].Some? && 1 <= values[i].value <= 10
    }

    /**
     * Between rounds: no round is active, the play area holds no CPU card,
     * and player cards are left there only once the CPU hand has run out.
     */
    ghost predicate Idle()
      reads this`isRoundActive, this`playArea, this`cpuHand
    {
      && !isRoundActive
      && OwnedBy(playArea, owner, Player)
      && (playArea != [] ==> cpuHand == [])
    }

    /**
     * The page load: `assignOwners` gives each card the side of the hand it
     * starts in, `assignValues` rolls every value, scores are 0 and no round
     * is active.
     */
    constructor (playerCards: seq<CardId>, cpuCards: seq<CardId>, rolls: seq<int>)
      requires EachOnce(playerCards + cpuCards, |playerCards| + |cpuCards|)
      requires |rolls| == |playerCards| + |cpuCards|
      requires forall i :: 0 <= i < |rolls| ==> 1 <= rolls[i] <= 10
      ensures Valid() && Idle() && ValuesInRange()
      ensures |owner| == |rolls|
      ensures forall x :: 0 <= x < |owner| ==> (owner[x] == Player <==> x in playerCards)
      ensures Table() == Layout(playerCards, cpuCards, [], [])
      ensures playerScore == 0 && opponentScore == 0
      ensures forall i :: 0 <= i < |values| ==> values[i] == Some(rolls[i])
    {
      var n := |playerCards| + |cpuCards|;
      var sides := AssignOwners(playerCards, n);
      owner := sides;
      values := [];
      playerScore, opponentScore, isRoundActive := 0, 0, false;
      playerHand, cpuHand, playArea, discard := playerCards, cpuCards, [], [];
      new;
      AssignValues(rolls);
      assert Valid() by {
        DealIsSound(playerCards, cpuCards, owner);
      }
    }

    /** `assignValues`: each card in turn, card i getting the value rolls[i]. */
    method AssignValues(rolls: seq<int>)
      requires |rolls| == |owner|
      requires forall i :: 0 <= i < |rolls| ==> 1 <= rolls[i] <= 10
      modifies this`values
      ensures |values| == |rolls|
      ensures forall i :: 0 <= i < |values| ==> values[i] == Some(rolls[i])
      ensures ValuesInRange()
    {
      values := [];
      while |values| < |rolls|
        invariant |values| <= |rolls|
        invariant forall k :: 0 <= k < |values| ==> values[k] == Some(rolls[k])
      {
        values := values + [Some(rolls[|values|])];
      }
    }

    /** The counts `updateDiscardCounts` shows: discarded player cards, discarded CPU cards. */
    function DiscardCounts(): (counts: (nat, nat))
      reads this`values, this`playerHand, this`cpuHand, this`playArea, this`discard
      requires Valid()
      ensures counts.0 + counts.1 == |discard|
    {
      FilterSplit(discard, owner);
      (|Filter(discard, owner, Player)|, |Filter(discard, owner, Cpu)|)
    }

    /** The cards `cpuPlay` may choose from: CPU-owned cards in the CPU hand. */
    function Available(): (available: seq<CardId>)
      reads this`values, this`playerHand, this`cpuHand, this`playArea, this`discard
      requires Valid()
      ensures available == cpuHand
    {
      Filter(cpuHand, owner, Cpu)
    }

    /** `appendChild(x)` on the container dest. */
    method MoveTo(x: CardId, dest: Zone)
      requires Valid() && x < |owner|
      requires dest == PlayerHand ==> owner[x] == Player
      requires dest == CpuHand ==> owner[x] == Cpu
      modifies this`playerHand, this`cpuHand, this`playArea, this`discard
      ensures Valid()
      ensures Table() == Relocate(old(Table()), x, dest)
      ensures values == old(values) && playerScore == old(playerScore) && opponentScore == old(opponentScore)
      ensures isRoundActive == old(isRoundActive)
    {
      var t := Relocate(Table(), x, dest);
      RelocateKeepsSound(Table(), owner, x, dest);
      playerHand, cpuHand, playArea, discard := t.playerHand, t.cpuHand, t.playArea, t.discard;
      assert Table() == t;
    }

    /** `moveToDiscard`: the card goes to the end of the internal discard. */
    method MoveToDiscard(card: CardId)
      requires Valid() && card < |owner|
      modifies this`playerHand, this`cpuHand, this`playArea, this`discard
      ensures Valid()
      ensures Table() == Relocate(old(Table()), card, Discard)
      ensures card in discard
      ensures values == old(values) && playerScore == old(playerScore) && opponentScore == old(opponentScore)
      ensures isRoundActive == old(isRoundActive)
    {
      MoveTo(card, Discard);
      RelocateMembers(old(Table()), card, Discard);
    }

    /**
     * The click handler: a click is ignored while a round is active, off any
     * card, or on a card that is not a player card in the player hand;
     * otherwise the card is played.
     */
    method Click(target: Option<CardId>) returns (played: bool)
      requires Valid()
      requires target.Some? ==> target.value < |owner|
      modifies this`playerHand, this`cpuHand, this`playArea, this`discard, this`isRoundActive
      ensures Valid()
      ensures played <==> && !old(isRoundActive) && target.Some?
                          && owner[target.value] == Player && target.value in old(playerHand)
      ensures !played ==> Table() == old(Table()) && isRoundActive == old(isRoundActive)
      ensures played ==> && isRoundActive
                         && Table() == old(Table()).(playerHand := Without(old(playerHand), [target.value]),
                                                    playArea := old(playArea) + [target.value])
      ensures values == old(values) && playerScore == old(playerScore) && opponentScore == old(opponentScore)
    {
      if isRoundActive {
        return false;
      }
      if target.None? {
        return false;
      }
      var card := target.value;
      if owner[card] == Player && card in playerHand {
        PlayFromPlayerHand(Table(), |owner|, card);
        PlayPlayerCard(card);
        played := true;
      } else {
        played := false;
      }
    }

    /** `playPlayerCard`: the round starts and the card goes to the end of the play area. */
    method PlayPlayerCard(card: CardId)
      requires Valid() && card < |owner|
      modifies this`playerHand, this`cpuHand, this`playArea, this`discard, this`isRoundActive
      ensures Valid()
      ensures old(isRoundActive) ==> Table() == old(Table()) && isRoundActive
      ensures !old(isRoundActive) ==> isRoundActive && Table() == Relocate(old(Table()), card, PlayArea)
      ensures values == old(values) && playerScore == old(playerScore) && opponentScore == old(opponentScore)
    {
      if isRoundActive {
        return;
      }
      isRoundActive := true;
      MoveTo(card, PlayArea);
    }

    /**
     * `cpuPlay`: the CPU plays the available card at position pick (the
     * random draw), or plays nothing when none is available.
     */
    method CpuPlay(pick: nat) returns (chosen: Option<CardId>)
      requires Valid()
      requires |Available()| > 0 ==> pick < |Available()|
      modifies this`playerHand, this`cpuHand, this`playArea, this`discard
      ensures Valid()
      ensures old(Available()) == [] ==> chosen.None? && Table() == old(Table())
      ensures old(Available()) != [] ==>
                && chosen == Some(old(Available())[pick])
                && chosen.value in old(cpuHand) && owner[chosen.value] == Cpu
                && Table() == Relocate(old(Table()), chosen.value, PlayArea)
      ensures values == old(values) && playerScore == old(playerScore) && opponentScore == old(opponentScore)
      ensures isRoundActive == old(isRoundActive)
    {
      var available := Available();
      if |available| == 0 {
        return None;
      }
      var card := available[pick];
      MoveTo(card, PlayArea);
      chosen := Some(card);
    }

    /**
     * `evaluateRound`: take the first player card and the first CPU card of
     * the play area. When one is missing the round is switched off and
     * nothing else changes. When a value does not parse both cards are
     * discarded unscored. Otherwise the higher value scores one point for its
     * side and a tie scores nothing; the discard comes later.
     */
    method EvaluateRound() returns (ev: Evaluation)
      requires Valid()
      modifies this`playerHand, this`cpuHand, this`playArea, this`discard
      modifies this`playerScore, this`opponentScore, this`isRoundActive
      ensures Valid()
      ensures ev.Aborted? <==> || FirstOwned(old(playArea), owner, Player).None?
                               || FirstOwned(old(playArea), owner, Cpu).None?
      ensures !ev.Aborted? ==>
                && ev.playerCard == old(playArea)[FirstOwned(old(playArea), owner, Player).value]
                && ev.cpuCard == old(playArea)[FirstOwned(old(playArea), owner, Cpu).value]
                && (ev.InvalidValue? <==> values[ev.playerCard].None? || values[ev.cpuCard].None?)
      ensures ev.Aborted? ==> Table() == old(Table()) && !isRoundActive
      ensures ev.InvalidValue? ==>
                && Table() == Relocate(Relocate(old(Table()), ev.playerCard, Discard), ev.cpuCard, Discard)
                && ev.playerCard in discard && ev.cpuCard in discard
                && !isRoundActive
      ensures ev.Resolved? ==>
                && Table() == old(Table()) && isRoundActive == old(isRoundActive)
                && values[ev.playerCard] == Some(ev.playerValue)
                && values[ev.cpuCard] == Some(ev.cpuValue)
                && ev.winner == Compare(ev.playerValue, ev.cpuValue)
      ensures playerScore == old(playerScore) + (if ev.Resolved? && ev.winner == PlayerWins then 1 else 0)
      ensures opponentScore == old(opponentScore) + (if ev.Resolved? && ev.winner == CpuWins then 1 else 0)
      ensures values == old(values)
    {
      var pi := FirstOwned(playArea, owner, Player);
      var ci := FirstOwned(playArea, owner, Cpu);
      if pi.None? || ci.None? {
        isRoundActive := false;
        return Aborted;
      }
      var playerCard, cpuCard := playArea[pi.value], playArea[ci.value];
      var p, c := values[playerCard], values[cpuCard];
      if p.None? || c.None? {
        // the same steps as `DiscardPlayed`, run at once
        DiscardPlayed(playerCard, cpuCard);
        return InvalidValue(playerCard, cpuCard);
      }
      var winner;
      if p.value > c.value {
        playerScore := playerScore + 1;
        winner := PlayerWins;
      } else if c.value > p.value {
        opponentScore := opponentScore + 1;
        winner := CpuWins;
      } else {
        winner := Tie;
      }
      ev := Resolved(playerCard, cpuCard, p.value, c.value, winner);
    }

    /** The delayed closure of `evaluateRound`: discard both compared cards and end the round. */
    method DiscardPlayed(playerCard: CardId, cpuCard: CardId)
      requires Valid() && playerCard < |owner| && cpuCard < |owner|
      modifies this`playerHand, this`cpuHand, this`playArea, this`discard, this`isRoundActive
      ensures Valid() && !isRoundActive
      ensures Table() == Relocate(Relocate(old(Table()), playerCard, Discard), cpuCard, Discard)
      ensures playerCard in discard && cpuCard in discard
      ensures values == old(values) && playerScore == old(playerScore) && opponentScore == old(opponentScore)
    {
      MoveToDiscard(playerCard);
      ghost var mid := Table();
      MoveToDiscard(cpuCard);
      if playerCard != cpuCard {
        RelocateMembers(mid, cpuCard, Discard);
      }
      isRoundActive := false;
    }

    /**
     * A whole round as the timers chain it: the click, the CPU's play 250 ms
     * later, the evaluation (200 ms after that, or at once when the CPU hand
     * is empty) and, after a scored comparison, the discard 1200 ms later.
     * pick is the CPU's random draw. None means the click was ignored.
     */
    method PlayRound(target: Option<CardId>, pick: nat) returns (ev: Option<Evaluation>)
      requires Valid() && Idle()
      requires target.Some? ==> target.value < |owner|
      requires cpuHand != [] ==> pick < |cpuHand|
      modifies this`playerHand, this`cpuHand, this`playArea, this`discard
      modifies this`playerScore, this`opponentScore, this`isRoundActive
      ensures Valid() && Idle()
      ensures ev.None? <==> !(target.Some? && owner[target.value] == Player && target.value in old(playerHand))
      ensures ev.None? ==> Table() == old(Table())
      ensures ev.Some? && old(cpuHand) == [] ==>
                && ev.value == Aborted
                && Table() == old(Table()).(playerHand := Without(old(playerHand), [target.value]),
                                            playArea := old(playArea) + [target.value])
      ensures ev.Some? && old(cpuHand) != [] ==>
                var x, c := target.value, old(cpuHand)[pick];
                && Table() == Layout(Without(old(playerHand), [x]), Without(old(cpuHand), [c]),
                                     [], old(discard) + [x, c])
                && !ev.value.Aborted? && ev.value.playerCard == x && ev.value.cpuCard == c
                && (ev.value.Resolved? <==> values[x].Some? && values[c].Some?)
                && (ev.value.Resolved? ==>
                      && values[x] == Some(ev.value.playerValue) && values[c] == Some(ev.value.cpuValue)
                      && ev.value.winner == Compare(ev.value.playerValue, ev.value.cpuValue))
      ensures playerScore == old(playerScore) +
                (if ev.Some? && ev.value.Resolved? && ev.value.winner == PlayerWins then 1 else 0)
      ensures opponentScore == old(opponentScore) +
                (if ev.Some? && ev.value.Resolved? && ev.value.winner == CpuWins then 1 else 0)
    {
      var played := Click(target);
      if !played {
        return None;
      }
      var e := FollowUp(target.value, pick);
      ev := Some(e);
    }

    /** The timer chain that follows a played card: `cpuPlay`, `evaluateRound` and the delayed discard. */
    method FollowUp(x: CardId, pick: nat) returns (ev: Evaluation)
      requires Valid() && isRoundActive && x < |owner| && owner[x] == Player
      requires playArea != [] && playArea[|playArea| - 1] == x && OwnedBy(playArea, owner, Player)
      requires cpuHand != [] ==> playArea == [x] && pick < |cpuHand|
      modifies this`playerHand, this`cpuHand, this`playArea, this`discard
      modifies this`playerScore, this`opponentScore, this`isRoundActive
      ensures Valid() && !isRoundActive
      ensures old(cpuHand) == [] ==> ev == Aborted && Table() == old(Table())
      ensures old(cpuHand) != [] ==>
                var c := old(cpuHand)[pick];
                && Table() == Layout(old(playerHand), Without(old(cpuHand), [c]), [], old(discard) + [x, c])
                && !ev.Aborted? && ev.playerCard == x && ev.cpuCard == c
                && (ev.Resolved? <==> values[x].Some? && values[c].Some?)
                && (ev.Resolved? ==>
                      && values[x] == Some(ev.playerValue) && values[c] == Some(ev.cpuValue)
                      && ev.winner == Compare(ev.playerValue, ev.cpuValue))
      ensures playerScore == old(playerScore) + (if ev.Resolved? && ev.winner == PlayerWins then 1 else 0)
      ensures opponentScore == old(opponentScore) + (if ev.Resolved? && ev.winner == CpuWins then 1 else 0)
      ensures values == old(values)
    {
      if cpuHand == [] {
        FirstOwnedOfOneSide(playArea, owner, Player, Cpu);
        var none := CpuPlay(pick);
        ev := EvaluateRound();
        return;
      }
      ghost var t1 := Table();
      var c := cpuHand[pick];
      var chosen := CpuPlay(pick);
      PlayFromCpuHand(t1, |owner|, c);
      assert playArea == [x] + [c];
      ev := Settle();
    }

    /**
     * `evaluateRound` followed by its delayed closure, when the play area
     * holds exactly a player card and then a CPU card: the pair is compared,
     * scored when both values parse, and then both cards are discarded.
     */
    method Settle() returns (ev: Evaluation)
      requires Valid() && |playArea| == 2
      requires playArea[0] < |owner| && owner[playArea[0]] == Player
      requires playArea[1] < |owner| && owner[playArea[1]] == Cpu
      modifies this`playerHand, this`cpuHand, this`playArea, this`discard
      modifies this`playerScore, this`opponentScore, this`isRoundActive
      ensures Valid() && !isRoundActive
      ensures Table() == Layout(old(playerHand), old(cpuHand), [], old(discard) + old(playArea))
      ensures !ev.Aborted? && ev.playerCard == old(playArea)[0] && ev.cpuCard == old(playArea)[1]
      ensures ev.Resolved? <==> values[ev.playerCard].Some? && values[ev.cpuCard].Some?
      ensures ev.Resolved? ==>
                && values[ev.playerCard] == Some(ev.playerValue) && values[ev.cpuCard] == Some(ev.cpuValue)
                && ev.winner == Compare(ev.playerValue, ev.cpuValue)
      ensures playerScore == old(playerScore) + (if ev.Resolved? && ev.winner == PlayerWins then 1 else 0)
      ensures opponentScore == old(opponentScore) + (if ev.Resolved? && ev.winner == CpuWins then 1 else 0)
      ensures values == old(values)
    {
      ghost var t := Table();
      DiscardPair(t, |owner|);
      FirstOwnedOfPair(playArea[0], playArea[1], owner);
      assert playArea == [playArea[0], playArea[1]];
      ev := EvaluateRound();
      if ev.Resolved? {
        DiscardPlayed(ev.playerCard, ev.cpuCard);
      }
    }

    /**
     * `resetGame`, the New Game button: the cards of the play area go to the
     * discard, then every card, in document order, is appended to its
     * owner's hand; scores return to 0, values are rolled again and the round
     * flag is cleared. order is the document order of the cards and rolls is
     * the new values.
     */
    method ResetGame(order: seq<CardId>, rolls: seq<int>)
      requires Valid()
      requires EachOnce(order, |owner|)
      requires |rolls| == |owner|
      requires forall i :: 0 <= i < |rolls| ==> 1 <= rolls[i] <= 10
      modifies this
      ensures Valid() && Idle() && ValuesInRange()
      ensures Known(order, owner)
      ensures Table() == Layout(Filter(order, owner, Player), Filter(order, owner, Cpu), [], [])
      ensures forall x :: 0 <= x < |owner| ==>
                (x in playerHand <==> owner[x] == Player) && (x in cpuHand <==> owner[x] == Cpu)
      ensures playerScore == 0 && opponentScore == 0
      ensures forall i :: 0 <= i < |values| ==> values[i] == Some(rolls[i])
    {
      DiscardPlayArea();
      ReturnAll(order);
      ghost var returned := Table();
      assert Sound(returned, owner);
      playerScore, opponentScore := 0, 0;
      AssignValues(rolls);
      isRoundActive := false;
      assert Table() == returned;
    }

    /** The first loop of `resetGame`: each card of the play area, front first, goes to the discard. */
    method DiscardPlayArea()
      requires Valid()
      modifies this`playerHand, this`cpuHand, this`playArea, this`discard
      ensures Valid()
      ensures Table() == Layout(old(playerHand), old(cpuHand), [], old(discard) + old(playArea))
    {
      var played := playArea;
      var i := 0;
      while i < |played|
        invariant 0 <= i <= |played|
        invariant Valid()
        invariant playerHand == old(playerHand) && cpuHand == old(cpuHand)
        invariant playArea == played[i..]
        invariant discard == old(discard) + played[..i]
      {
        DiscardFront();
        assert played[..i + 1] == played[..i] + [played[i]];
        i := i + 1;
      }
      assert played[..i] == played;
    }

    /** One step of that loop: the card at the front of the play area goes to the discard. */
    method DiscardFront()
      requires Valid() && playArea != []
      modifies this`playerHand, this`cpuHand, this`playArea, this`discard
      ensures Valid()
      ensures playerHand == old(playerHand) && cpuHand == old(cpuHand)
      ensures playArea == old(playArea)[1..] && discard == old(discard) + [old(playArea)[0]]
    {
      DiscardHead(Table(), |owner|);
      MoveToDiscard(playArea[0]);
    }

    /**
     * The second loop of `resetGame`: every card, in the order given, is
     * appended to its owner's hand, which leaves each hand holding exactly
     * its owner's cards in that order.
     */
    method ReturnAll(order: seq<CardId>)
      requires Valid()
      requires EachOnce(order, |owner|)
      modifies this`playerHand, this`cpuHand, this`playArea, this`discard
      ensures Valid()
      ensures Known(order, owner)
      ensures Table() == Layout(Filter(order, owner, Player), Filter(order, owner, Cpu), [], [])
      ensures forall x :: 0 <= x < |owner| ==>
                (x in playerHand <==> owner[x] == Player) && (x in cpuHand <==> owner[x] == Cpu)
    {
      RegroupAll(Table(), |owner|, order, owner);
      ReturnEach(order);
      FilterSides(order, owner);
    }

    /** The loop itself: each card of order, in turn, is appended to its owner's hand. */
    method ReturnEach(order: seq<CardId>)
      requires Valid() && Known(order, owner)
      modifies this`playerHand, this`cpuHand, this`playArea, this`discard
      ensures Valid()
      ensures Table() == Regroup(old(Table()), order, owner)
    {
      var j := 0;
      while j < |order|
        invariant 0 <= j <= |order|
        invariant Valid()
        invariant Table() == Regroup(old(Table()), order[..j], owner)
      {
        var card := order[j];
        MoveTo(card, Home(owner[card]));
        assert order[..j + 1][..j] == order[..j];
        j := j + 1;
      }
      assert order[..j] == order;
    }
  }
}