/**
 * Where the cards sit. The page holds four containers of cards: the player's
 * hand, the CPU's hand, the play area and the hidden discard container. Each
 * is an ordered list of card numbers, in the order of its DOM children.
 * Moving a card with `appendChild` takes it out of whichever container held it
 * and puts it at the end of the target container; `Relocate` is that move.
 */
module Zones {
  import opened Cards

  datatype Zone = PlayerHand | CpuHand | PlayArea | Discard

  datatype Layout = Layout(playerHand: seq<CardId>, cpuHand: seq<CardId>,
                           playArea: seq<CardId>, discard: seq<CardId>)

  /** All four containers one after the other. */
  function All(l: Layout): seq<CardId> {
    l.playerHand + l.cpuHand + l.playArea + l.discard
  }

  function Contents(l: Layout, z: Zone): seq<CardId> {
    match z
    case PlayerHand => l.playerHand
    case CpuHand => l.cpuHand
    case PlayArea => l.playArea
    case Discard => l.discard
  }

  /** The cards 0 .. n-1, each once. */
  ghost function Deck(n: nat): multiset<CardId> {
    if n == 0 then multiset{} else Deck(n - 1) + multiset{n - 1}
  }

  lemma {:induction false} DeckCount(n: nat, x: CardId)
    ensures Deck(n)[x] == if x < n then 1 else 0
  {
    if n > 0 {
      DeckCount(n - 1, x);
    }
  }

  lemma {:induction false} DeckSize(n: nat)
    ensures |Deck(n)| == n
  {
    if n > 0 {
      DeckSize(n - 1);
    }
  }

  /** s lists the cards 0 .. n-1, each exactly once, in some order. */
  ghost predicate EachOnce(s: seq<CardId>, n: nat) {
    forall y: CardId :: multiset(s)[y] == if y < n then 1 else 0
  }

  /** A list of the cards 0 .. n-1, each once, is n long. */
  lemma EachOnceLength(s: seq<CardId>, n: nat)
    requires EachOnce(s, n)
    ensures |s| == n
  {
    forall y: CardId ensures multiset(s)[y] == Deck(n)[y] {
      DeckCount(n, y);
    }
    assert multiset(s) == Deck(n);
    DeckSize(n);
  }

  /**
   * The containers hold the cards 0 .. n-1 between them and each of them
   * exactly once: no card is lost, duplicated or invented.
   */
  ghost predicate Partition(l: Layout, n: nat) {
    EachOnce(All(l), n)
  }

  /** Under a partition of n cards the containers hold n cards in all. */
  lemma Conservation(l: Layout, n: nat)
    requires Partition(l, n)
    ensures |l.playerHand| + |l.cpuHand| + |l.playArea| + |l.discard| == n
  {
    EachOnceLength(All(l), n);
  }

  /**
   * Under a partition every card sits in exactly one container, exactly
   * once, and a number that is not a card sits nowhere.
   */
  lemma ExactlyOneZone(l: Layout, n: nat, x: CardId)
    requires Partition(l, n)
    ensures x < n ==> multiset(l.playerHand)[x] + multiset(l.cpuHand)[x]
                      + multiset(l.playArea)[x] + multiset(l.discard)[x] == 1
    ensures x >= n ==> x !in All(l)
  {
    assert multiset(All(l))[x] == multiset(l.playerHand)[x] + multiset(l.cpuHand)[x]
                                  + multiset(l.playArea)[x] + multiset(l.discard)[x];
  }

  /** s with every card of xs taken out, the rest in their order. */
  function Without(s: seq<CardId>, xs: seq<CardId>): (r: seq<CardId>)
    ensures |r| <= |s|
  {
    if s == [] then []
    else (if s[0] in xs then [] else [s[0]]) + Without(s[1..], xs)
  }

  /** What is left is exactly the cards of s that are not in xs. */
  lemma {:induction false} WithoutMembers(s: seq<CardId>, xs: seq<CardId>)
    ensures forall y :: y in Without(s, xs) <==> y in s && y !in xs
  {
    if s != [] {
      WithoutMembers(s[1..], xs);
      assert s == [s[0]] + s[1..];
    }
  }

  /** Taking out xs zeroes the multiplicity of its cards and keeps every other one. */
  lemma {:induction false} WithoutMultiset(s: seq<CardId>, xs: seq<CardId>)
    ensures forall y :: multiset(Without(s, xs))[y] == if y in xs then 0 else multiset(s)[y]
  {
    if s != [] {
      WithoutMultiset(s[1..], xs);
      assert s == [s[0]] + s[1..];
    }
  }

  /** Taking out cards that s does not hold leaves s as it is. */
  lemma {:induction false} WithoutAbsent(s: seq<CardId>, xs: seq<CardId>)
    requires forall y :: y in s ==> y !in xs
    ensures Without(s, xs) == s
  {
    if s != [] {
      assert s[0] in s;
      WithoutAbsent(s[1..], xs);
      assert s == [s[0]] + s[1..];
    }
  }

  /** Taking cards out of a concatenation takes them out of each part. */
  lemma {:induction false} WithoutConcat(a: seq<CardId>, b: seq<CardId>, xs: seq<CardId>)
    ensures Without(a + b, xs) == Without(a, xs) + Without(b, xs)
  {
    if a == [] {
      assert a + b == b;
    } else {
      assert (a + b)[1..] == a[1..] + b;
      WithoutConcat(a[1..], b, xs);
    }
  }
  /** Taking out xs and then ys is taking out xs + ys. */
  lemma {:induction false} WithoutTwice(s: seq<CardId>, xs: seq<CardId>, ys: seq<CardId>)
    ensures Without(Without(s, xs), ys) == Without(s, xs + ys)
  {
    if s != [] {
      WithoutTwice(s[1..], xs, ys);
      if s[0] in xs {
        assert Without(s, xs) == Without(s[1..], xs);
      } else {
        assert Without(s, xs) == [s[0]] + Without(s[1..], xs);
        assert Without(s, xs)[1..] == Without(s[1..], xs);
      }
    }
  }

  /** One container's side of a move: x leaves it, and joins it at the end when it is the target. */
  function Shift(s: seq<CardId>, x: CardId, here: bool): (r: seq<CardId>)
    ensures |r| <= |s| + 1
  {
    Without(s, [x]) + (if here then [x] else [])
  }

  /**
   * After its side of a move a container holds x exactly when it is the
   * target, holds every other card exactly when it held it before, and is
   * untouched but for the appended x when it did not hold x.
   */
  lemma ShiftMembers(s: seq<CardId>, x: CardId, here: bool)
    ensures x in Shift(s, x, here) <==> here
    ensures forall y :: y != x ==> (y in Shift(s, x, here) <==> y in s)
    ensures x !in s ==> Shift(s, x, here) == s + (if here then [x] else [])
  {
    WithoutMembers(s, [x]);
    if x !in s {
      WithoutAbsent(s, [x]);
    }
  }

  /**
   * `appendChild(x)` on the container dest: x leaves the container that
   * held it and goes to the end of dest; no other card moves.
   */
  function Relocate(l: Layout, x: CardId, dest: Zone): (r: Layout)
    ensures |All(r)| <= |All(l)| + 1
  {
    Layout(Shift(l.playerHand, x, dest == PlayerHand),
           Shift(l.cpuHand, x, dest == CpuHand),
           Shift(l.playArea, x, dest == PlayArea),
           Shift(l.discard, x, dest == Discard))
  }

  /**
   * A container that did not hold x is untouched by the move, except that
   * the target gets x at its end.
   */
  lemma RelocateUntouched(l: Layout, x: CardId, dest: Zone)
    ensures var r := Relocate(l, x, dest);
            && (x !in l.playerHand ==> r.playerHand == l.playerHand + (if dest == PlayerHand then [x] else []))
            && (x !in l.cpuHand ==> r.cpuHand == l.cpuHand + (if dest == CpuHand then [x] else []))
            && (x !in l.playArea ==> r.playArea == l.playArea + (if dest == PlayArea then [x] else []))
            && (x !in l.discard ==> r.discard == l.discard + (if dest == Discard then [x] else []))
  {
    ShiftMembers(l.playerHand, x, dest == PlayerHand);
    ShiftMembers(l.cpuHand, x, dest == CpuHand);
    ShiftMembers(l.playArea, x, dest == PlayArea);
    ShiftMembers(l.discard, x, dest == Discard);
  }

  /**
   * After the move x sits in dest and in no other container, and every
   * other card sits where it sat before.
   */
  lemma RelocateMembers(l: Layout, x: CardId, dest: Zone)
    ensures var r := Relocate(l, x, dest);
            && (x in r.playerHand <==> dest == PlayerHand)
            && (x in r.cpuHand <==> dest == CpuHand)
            && (x in r.playArea <==> dest == PlayArea)
            && (x in r.discard <==> dest == Discard)
            && forall y :: y != x ==>
                 && (y in r.playerHand <==> y in l.playerHand)
                 && (y in r.cpuHand <==> y in l.cpuHand)
                 && (y in r.playArea <==> y in l.playArea)
                 && (y in r.discard <==> y in l.discard)
  {
    ShiftMembers(l.playerHand, x, dest == PlayerHand);
    ShiftMembers(l.cpuHand, x, dest == CpuHand);
    ShiftMembers(l.playArea, x, dest == PlayArea);
    ShiftMembers(l.discard, x, dest == Discard);
  }

  /** After the move every card of this container still belongs to o. */
  lemma ShiftOwnedBy(s: seq<CardId>, x: CardId, here: bool, owner: seq<Owner>, o: Owner)
    requires OwnedBy(s, owner, o) && x < |owner|
    requires here ==> owner[x] == o
    ensures OwnedBy(Shift(s, x, here), owner, o)
  {
    var r := Shift(s, x, here);
    ShiftMembers(s, x, here);
    forall i | 0 <= i < |r| ensures r[i] < |owner| && owner[r[i]] == o {
      assert r[i] in r;
      if r[i] != x {
        var j :| 0 <= j < |s| && s[j] == r[i];
      }
    }
  }

  /** After the move every card of this container is still a card. */
  lemma ShiftKnown(s: seq<CardId>, x: CardId, here: bool, owner: seq<Owner>)
    requires Known(s, owner) && x < |owner|
    ensures Known(Shift(s, x, here), owner)
  {
    var r := Shift(s, x, here);
    ShiftMembers(s, x, here);
    forall i | 0 <= i < |r| ensures r[i] < |owner| {
      assert r[i] in r;
      if r[i] != x {
        var j :| 0 <= j < |s| && s[j] == r[i];
      }
    }
  }

  /** How often a card occurs in one container after a move. */
  lemma ShiftCount(s: seq<CardId>, x: CardId, here: bool, y: CardId)
    ensures multiset(Shift(s, x, here))[y] ==
              if y == x then (if here then 1 else 0) else multiset(s)[y]
  {
    WithoutMultiset(s, [x]);
  }

  /** How often a card occurs in all containers after a move: x once, the others as before. */
  lemma RelocateCount(l: Layout, x: CardId, dest: Zone, y: CardId)
    ensures multiset(All(Relocate(l, x, dest)))[y] ==
              if y == x then 1 else multiset(All(l))[y]
  {
    var r := Relocate(l, x, dest);
    ShiftCount(l.playerHand, x, dest == PlayerHand, y);
    ShiftCount(l.cpuHand, x, dest == CpuHand, y);
    ShiftCount(l.playArea, x, dest == PlayArea, y);
    ShiftCount(l.discard, x, dest == Discard, y);
    AllCount(r, y);
    AllCount(l, y);
  }

  /** A card's count over all containers is the sum of its counts in each. */
  lemma AllCount(l: Layout, y: CardId)
    ensures multiset(All(l))[y] == multiset(l.playerHand)[y] + multiset(l.cpuHand)[y]
                                   + multiset(l.playArea)[y] + multiset(l.discard)[y]
  {
  }

  /** A move keeps the partition: the card is relocated, never copied or lost. */
  lemma {:induction false} RelocateKeepsPartition(l: Layout, n: nat, x: CardId, dest: Zone)
    requires Partition(l, n) && x < n
    ensures Partition(Relocate(l, x, dest), n)
  {
    var r := Relocate(l, x, dest);
    forall y: CardId ensures multiset(All(r))[y] == if y < n then 1 else 0 {
      RelocateCount(l, x, dest, y);
    }
    assert EachOnce(All(r), n);
  }

  /**
   * A sound table: the containers partition the cards and each hand holds
   * only its owner's cards.
   */
  ghost predicate Sound(l: Layout, owner: seq<Owner>) {
    && Partition(l, |owner|)
    && OwnedBy(l.playerHand, owner, Player)
    && OwnedBy(l.cpuHand, owner, Cpu)
    && Known(l.playArea, owner)
    && Known(l.discard, owner)
  }

  /**
   * The deal: when the two hands list every card once between them and each
   * card is owned by the side whose hand it starts in, the table is sound.
   */
  lemma {:induction false} DealIsSound(ph: seq<CardId>, ch: seq<CardId>, owner: seq<Owner>)
    requires EachOnce(ph + ch, |owner|)
    requires forall x :: 0 <= x < |owner| ==> (owner[x] == Player <==> x in ph)
    ensures Sound(Layout(ph, ch, [], []), owner)
  {
    var l := Layout(ph, ch, [], []);
    assert All(l) == ph + ch;
    forall i | 0 <= i < |ph| ensures ph[i] < |owner| {
      assert ph[i] in multiset(ph + ch);
    }
    forall i | 0 <= i < |ch| ensures ch[i] < |owner| && ch[i] !in ph {
      var x := ch[i];
      assert x in multiset(ph + ch);
      assert multiset(ph + ch)[x] == multiset(ph)[x] + multiset(ch)[x];
    }
  }

  /** A move that puts a card into its owner's hand, the play area or the discard keeps the table sound. */
  lemma {:induction false} RelocateKeepsSound(l: Layout, owner: seq<Owner>, x: CardId, dest: Zone)
    requires Sound(l, owner) && x < |owner|
    requires dest == PlayerHand ==> owner[x] == Player
    requires dest == CpuHand ==> owner[x] == Cpu
    ensures Sound(Relocate(l, x, dest), owner)
  {
    RelocateKeepsPartition(l, |owner|, x, dest);
    ShiftOwnedBy(l.playerHand, x, dest == PlayerHand, owner, Player);
    ShiftOwnedBy(l.cpuHand, x, dest == CpuHand, owner, Cpu);
    ShiftKnown(l.playArea, x, dest == PlayArea, owner);
    ShiftKnown(l.discard, x, dest == Discard, owner);
  }

  /**
   * Discarding the card at the front of the play area takes it off the front
   * and puts it at the end of the discard; nothing else moves.
   */
  lemma {:induction false} DiscardHead(l: Layout, n: nat)
    requires Partition(l, n) && l.playArea != []
    ensures Relocate(l, l.playArea[0], Discard) ==
              Layout(l.playerHand, l.cpuHand, l.playArea[1..], l.discard + [l.playArea[0]])
  {
    var x, rest := l.playArea[0], l.playArea[1..];
    FrontIsAlone(l, n);
    RelocateUntouched(l, x, Discard);
    assert Shift(l.playArea, x, false) == rest by {
      assert l.playArea == [x] + rest;
      assert Without(l.playArea, [x]) == Without(rest, [x]);
      WithoutAbsent(rest, [x]);
    }
  }

  /** Under a partition the card at the front of the play area sits nowhere else. */
  lemma {:induction false} FrontIsAlone(l: Layout, n: nat)
    requires Partition(l, n) && l.playArea != []
    ensures l.playArea[0] !in l.playerHand && l.playArea[0] !in l.cpuHand
    ensures l.playArea[0] !in l.discard && l.playArea[0] !in l.playArea[1..]
    ensures l.playArea[0] < n
  {
    var x, rest := l.playArea[0], l.playArea[1..];
    assert x in All(l);
    ExactlyOneZone(l, n, x);
    assert l.playArea == [x] + rest;
    assert multiset(l.playArea)[x] == 1 + multiset(rest)[x];
  }

  /** Playing a card from the player's hand takes it out of that hand and appends it to the play area. */
  lemma {:induction false} PlayFromPlayerHand(l: Layout, n: nat, x: CardId)
    requires Partition(l, n) && x in l.playerHand
    ensures Relocate(l, x, PlayArea) ==
              l.(playerHand := Without(l.playerHand, [x]), playArea := l.playArea + [x])
  {
    assert x in All(l);
    ExactlyOneZone(l, n, x);
    assert multiset(l.playerHand)[x] >= 1;
    RelocateUntouched(l, x, PlayArea);
    assert Shift(l.playerHand, x, false) == Without(l.playerHand, [x]);
  }

  /** Playing a card from the CPU hand takes it out of that hand and appends it to the play area. */
  lemma {:induction false} PlayFromCpuHand(l: Layout, n: nat, c: CardId)
    requires Partition(l, n) && c in l.cpuHand
    ensures Relocate(l, c, PlayArea) ==
              l.(cpuHand := Without(l.cpuHand, [c]), playArea := l.playArea + [c])
  {
    CpuCardIsAlone(l, n, c);
    RelocateUntouched(l, c, PlayArea);
    assert Shift(l.cpuHand, c, false) == Without(l.cpuHand, [c]);
  }

  /** Under a partition a card of the CPU hand sits in no other container. */
  lemma {:induction false} CpuCardIsAlone(l: Layout, n: nat, c: CardId)
    requires Partition(l, n) && c in l.cpuHand
    ensures c !in l.playerHand && c !in l.playArea && c !in l.discard
  {
    assert c in All(l);
    ExactlyOneZone(l, n, c);
    assert multiset(l.cpuHand)[c] >= 1;
  }

  /**
   * The discard at the end of a round: with the two compared cards alone in
   * the play area, discarding the first and then the second empties the play
   * area and appends both to the discard in that order.
   */
  lemma {:induction false} DiscardPair(l: Layout, n: nat)
    requires Partition(l, n) && |l.playArea| == 2
    ensures Relocate(Relocate(l, l.playArea[0], Discard), l.playArea[1], Discard) ==
              Layout(l.playerHand, l.cpuHand, [], l.discard + l.playArea)
  {
    var x, c := l.playArea[0], l.playArea[1];
    var m := Layout(l.playerHand, l.cpuHand, [c], l.discard + [x]);
    PairParts(l.discard, l.playArea);
    assert Relocate(l, x, Discard) == m by {
      DiscardHead(l, n);
    }
    assert Partition(m, n) by {
      FrontIsAlone(l, n);
      RelocateKeepsPartition(l, n, x, Discard);
    }
    DiscardHead(m, n);
  }

  lemma PairParts(d: seq<CardId>, s: seq<CardId>)
    requires |s| == 2
    ensures s[1..] == [s[1]] && [s[1]][1..] == []
    ensures d + [s[0]] + [s[1]] == d + s
  {
    assert s == [s[0]] + [s[1]];
  }

  /** The hand a card of owner o goes back to. */
  function Home(o: Owner): (z: Zone)
    ensures z == PlayerHand <==> o == Player
    ensures z == CpuHand <==> o == Cpu
  {
    match o
    case Player => PlayerHand
    case Cpu => CpuHand
  }

  /**
   * The cards of xs, in that order, each appended to its owner's hand
   * (the loop of `resetGame` over all cards).
   */
  function Regroup(l: Layout, xs: seq<CardId>, owner: seq<Owner>): Layout
    requires Known(xs, owner)
    decreases |xs|
  {
    if xs == [] then l
    else
      var x := xs[|xs| - 1];
      Relocate(Regroup(l, xs[..|xs| - 1], owner), x, Home(owner[x]))
  }

  /** Regrouping adds no card to the table beyond the listed ones. */
  lemma {:induction false} RegroupSize(l: Layout, xs: seq<CardId>, owner: seq<Owner>)
    requires Known(xs, owner)
    ensures |All(Regroup(l, xs, owner))| <= |All(l)| + |xs|
    decreases |xs|
  {
    if xs != [] {
      RegroupSize(l, xs[..|xs| - 1], owner);
    }
  }

  /**
   * Regrouping distinct cards takes each of them out of its container and
   * lines them up in their owners' hands, in the order of xs, after the cards
   * of the hands that were not regrouped.
   */
  lemma {:induction false} RegroupClosedForm(l: Layout, xs: seq<CardId>, owner: seq<Owner>)
    requires Known(xs, owner)
    requires forall y: CardId :: multiset(xs)[y] <= 1
    ensures Regroup(l, xs, owner) == Regrouped(l, xs, owner)
  {
    if xs != [] {
      var ys: seq<CardId>, x: CardId := xs[..|xs| - 1], xs[|xs| - 1];
      assert xs == ys + [x];
      assert multiset(xs) == multiset(ys) + multiset{x};
      forall y: CardId ensures multiset(ys)[y] <= 1 {
        assert multiset(xs)[y] == multiset(ys)[y] + (if y == x then 1 else 0);
      }
      assert multiset(ys)[x] == 0;
      assert Known(ys, owner);
      RegroupClosedForm(l, ys, owner);
      var before := Regrouped(l, ys, owner);
      assert Regroup(l, xs, owner) == Relocate(before, x, Home(owner[x]));
      HandStep(l.playerHand, ys, x, owner, Player);
      HandStep(l.cpuHand, ys, x, owner, Cpu);
      OtherStep(l.playArea, ys, x);
      OtherStep(l.discard, ys, x);
    } else {
      WithoutAbsent(l.playerHand, xs);
      WithoutAbsent(l.cpuHand, xs);
      WithoutAbsent(l.playArea, xs);
      WithoutAbsent(l.discard, xs);
    }
  }

  /**
   * The outcome of regrouping distinct cards xs: each leaves its container,
   * and the hands end with their owners' cards of xs in the order of xs.
   */
  function Regrouped(l: Layout, xs: seq<CardId>, owner: seq<Owner>): Layout
    requires Known(xs, owner)
  {
    Layout(Without(l.playerHand, xs) + Filter(xs, owner, Player),
           Without(l.cpuHand, xs) + Filter(xs, owner, Cpu),
           Without(l.playArea, xs),
           Without(l.discard, xs))
  }

  /** One step of the regrouping loop, seen from one hand. */
  lemma HandStep(h: seq<CardId>, ys: seq<CardId>, x: CardId, owner: seq<Owner>, o: Owner)
    requires Known(ys, owner) && x < |owner| && x !in ys
    ensures Known(ys + [x], owner)
    ensures Shift(Without(h, ys) + Filter(ys, owner, o), x, owner[x] == o)
            == Without(h, ys + [x]) + Filter(ys + [x], owner, o)
  {
    assert Known(ys + [x], owner);
    var f := Filter(ys, owner, o);
    FilterMembers(ys, owner, o);
    FilterStep(ys, x, owner, o);
    WithoutStep(h, ys, f, x);
  }

  lemma FilterStep(ys: seq<CardId>, x: CardId, owner: seq<Owner>, o: Owner)
    requires Known(ys, owner) && x < |owner|
    ensures Known(ys + [x], owner)
    ensures Filter(ys + [x], owner, o) == Filter(ys, owner, o) + (if owner[x] == o then [x] else [])
  {
    assert Known(ys + [x], owner);
    assert [x][1..] == [];
    FilterAppend(ys, [x], owner, o);
  }

  lemma WithoutStep(h: seq<CardId>, ys: seq<CardId>, f: seq<CardId>, x: CardId)
    requires x !in f
    ensures Without(Without(h, ys) + f, [x]) == Without(h, ys + [x]) + f
  {
    WithoutConcat(Without(h, ys), f, [x]);
    WithoutTwice(h, ys, [x]);
    WithoutAbsent(f, [x]);
  }

  /** One step of the regrouping loop, seen from the play area or the discard. */
  lemma OtherStep(c: seq<CardId>, ys: seq<CardId>, x: CardId)
    ensures Shift(Without(c, ys), x, false) == Without(c, ys + [x])
  {
    WithoutTwice(c, ys, [x]);
  }

  /**
   * When xs lists every card once, regrouping leaves the play area and the
   * discard empty and each hand holds exactly its owner's cards, in the
   * order of xs.
   */
  lemma {:induction false} RegroupAll(l: Layout, n: nat, xs: seq<CardId>, owner: seq<Owner>)
    requires Partition(l, n) && |owner| == n
    requires EachOnce(xs, n)
    ensures Known(xs, owner)
    ensures Regroup(l, xs, owner) ==
              Layout(Filter(xs, owner, Player), Filter(xs, owner, Cpu), [], [])
  {
    forall i | 0 <= i < |xs| ensures xs[i] < n {
      assert xs[i] in multiset(xs);
    }
    RegroupClosedForm(l, xs, owner);
    forall z ensures Without(Contents(l, z), xs) == [] {
      var c := Contents(l, z);
      forall y: CardId | y in c ensures y in xs {
        assert y in All(l) by {
          match z
          case PlayerHand =>
          case CpuHand =>
          case PlayArea =>
          case Discard =>
        }
        SameCards(All(l), xs, n, y);
      }
      CoveredIsEmptied(c, xs);
    }
    assert Without(Contents(l, PlayerHand), xs) == [];
    assert Without(Contents(l, CpuHand), xs) == [];
    assert Without(Contents(l, PlayArea), xs) == [];
    assert Without(Contents(l, Discard), xs) == [];
  }

  /** Two lists of the same n cards hold the same cards. */
  lemma SameCards(a: seq<CardId>, b: seq<CardId>, n: nat, y: CardId)
    requires EachOnce(a, n) && EachOnce(b, n) && y in a
    ensures y in b
  {
    assert y in multiset(a);
    assert multiset(b)[y] == 1;
  }

  /**
   * When xs lists every card once, filtering it by owner puts every card on
   * exactly its owner's side.
   */
  lemma {:induction false} FilterSides(xs: seq<CardId>, owner: seq<Owner>)
    requires EachOnce(xs, |owner|)
    ensures Known(xs, owner)
    ensures forall x :: 0 <= x < |owner| ==>
              && (x in Filter(xs, owner, Player) <==> owner[x] == Player)
              && (x in Filter(xs, owner, Cpu) <==> owner[x] == Cpu)
  {
    assert Known(xs, owner) by {
      forall i | 0 <= i < |xs| ensures xs[i] < |owner| {
        assert xs[i] in multiset(xs);
      }
    }
    FilterMembers(xs, owner, Player);
    FilterMembers(xs, owner, Cpu);
    forall x | 0 <= x < |owner| ensures x in xs {
      assert multiset(xs)[x] == 1;
    }
  }

  /** Taking out a list that covers s empties s. */
  lemma {:induction false} CoveredIsEmptied(s: seq<CardId>, xs: seq<CardId>)
    requires forall y :: y in s ==> y in xs
    ensures Without(s, xs) == []
  {
    if s != [] {
      assert s[0] in s;
      forall y | y in s[1..] ensures y in xs {
        assert y in s;
      }
      CoveredIsEmptied(s[1..], xs);
    }
  }
}
