/**
 * Cards of the two-player comparison game: who owns a card, what a card is
 * worth, the rule that decides a round, and the two lookups the round engine
 * makes over a list of cards (all cards of one owner, the first card of one
 * owner).
 *
 * A card is named by a number; the owner table and the value table of the
 * engine are indexed by it.
 */
module Cards {

  datatype Option<+T> = None | Some(value: T)

  /** The two sides of the table. A card's owner is fixed when the page loads. */
  datatype Owner = Player | Cpu

  type CardId = nat

  /** The outcome of comparing the two played values. */
  datatype Winner = PlayerWins | CpuWins | Tie

  /**
   * The whole rule of a round: the strictly higher value wins, equal values tie.
   */
  function Compare(p: int, c: int): (w: Winner)
    ensures w == PlayerWins <==> p > c
    ensures w == CpuWins <==> c > p
    ensures w == Tie <==> p == c
  {
    if p > c then PlayerWins else if c > p then CpuWins else Tie
  }

  /** Every card listed in s has an entry in the owner table. */
  predicate Known(s: seq<CardId>, owner: seq<Owner>) {
    forall i :: 0 <= i < |s| ==> s[i] < |owner|
  }

  /** Every card listed in s belongs to o. */
  predicate OwnedBy(s: seq<CardId>, owner: seq<Owner>, o: Owner) {
    forall i :: 0 <= i < |s| ==> s[i] < |owner| && owner[s[i]] == o
  }

  /**
   * The cards of s that belong to o, in the order of s (the
   * owner `filter` of `cpuPlay` and `updateDiscardCounts`).
   */
  function Filter(s: seq<CardId>, owner: seq<Owner>, o: Owner): (r: seq<CardId>)
    requires Known(s, owner)
    ensures OwnedBy(s, owner, o) ==> r == s
    ensures |r| <= |s|
  {
    if s == [] then []
    else (if owner[s[0]] == o then [s[0]] else []) + Filter(s[1..], owner, o)
  }

  /** What `filter` keeps is exactly the cards of s that belong to o. */
  lemma {:induction false} FilterMembers(s: seq<CardId>, owner: seq<Owner>, o: Owner)
    requires Known(s, owner)
    ensures forall y :: y in Filter(s, owner, o) <==> y in s && owner[y] == o
  {
    if s != [] {
      FilterMembers(s[1..], owner, o);
      assert s == [s[0]] + s[1..];
    }
  }

  /** Filtering a concatenation filters each part. */
  lemma {:induction false} FilterAppend(a: seq<CardId>, b: seq<CardId>, owner: seq<Owner>, o: Owner)
    requires Known(a, owner) && Known(b, owner)
    ensures Filter(a + b, owner, o) == Filter(a, owner, o) + Filter(b, owner, o)
  {
    if a == [] {
      assert a + b == b;
    } else {
      var head := if owner[a[0]] == o then [a[0]] else [];
      assert (a + b)[0] == a[0];
      assert (a + b)[1..] == a[1..] + b;
      FilterAppend(a[1..], b, owner, o);
      assert head + (Filter(a[1..], owner, o) + Filter(b, owner, o))
          == (head + Filter(a[1..], owner, o)) + Filter(b, owner, o);
    }
  }

  /** Every card belongs to exactly one side, so the two filters split s. */
  lemma {:induction false} FilterSplit(s: seq<CardId>, owner: seq<Owner>)
    requires Known(s, owner)
    ensures |Filter(s, owner, Player)| + |Filter(s, owner, Cpu)| == |s|
  {
    if s != [] {
      FilterSplit(s[1..], owner);
    }
  }

  /**
   * The position of the first card of s that belongs to o, if there is one
   * (the owner `find` of `evaluateRound`).
   */
  function FirstOwned(s: seq<CardId>, owner: seq<Owner>, o: Owner): (r: Option<nat>)
    requires Known(s, owner)
    ensures r.None? <==> forall i :: 0 <= i < |s| ==> owner[s[i]] != o
    ensures r.Some? ==> r.value < |s| && owner[s[r.value]] == o
    ensures r.Some? ==> forall j :: 0 <= j < r.value ==> owner[s[j]] != o
  {
    if s == [] then None
    else if owner[s[0]] == o then Some(0)
    else match FirstOwned(s[1..], owner, o)
      case None => None
      case Some(k) => Some(k + 1)
  }

  /** The card that `find` returns is the head of what `filter` returns. */
  lemma {:induction false} FirstOwnedIsHeadOfFilter(s: seq<CardId>, owner: seq<Owner>, o: Owner)
    requires Known(s, owner)
    ensures FirstOwned(s, owner, o).None? <==> Filter(s, owner, o) == []
    ensures FirstOwned(s, owner, o).Some? ==>
              s[FirstOwned(s, owner, o).value] == Filter(s, owner, o)[0]
  {
    if s != [] && owner[s[0]] != o {
      FirstOwnedIsHeadOfFilter(s[1..], owner, o);
    }
  }

  /** `find` looks for a card of the other side in vain when all cards of s are o's. */
  lemma {:induction false} FirstOwnedOfOneSide(s: seq<CardId>, owner: seq<Owner>, o: Owner, other: Owner)
    requires OwnedBy(s, owner, o) && other != o
    ensures Known(s, owner) && FirstOwned(s, owner, other).None?
  {
    forall y | y in s ensures owner[y] != other {
      var i :| 0 <= i < |s| && s[i] == y;
    }
  }

  /** With a player card followed by a CPU card, `find` picks the first for the player and the second for the CPU. */
  lemma FirstOwnedOfPair(x: CardId, c: CardId, owner: seq<Owner>)
    requires x < |owner| && c < |owner| && owner[x] == Player && owner[c] == Cpu
    ensures Known([x, c], owner)
    ensures FirstOwned([x, c], owner, Player) == Some(0)
    ensures FirstOwned([x, c], owner, Cpu) == Some(1)
  {
    assert [x, c][1..] == [c];
  }
}
