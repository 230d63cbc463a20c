/**
 * The end-of-turn bookkeeping of the game environment: `switch_hands`, which
 * passes every hand one seat on, and `reset_turn`, which refills the donut
 * deck positions whose card was taken or contested.
 */
module Turn {
  import opened Wrappers
  import opened Cards
  import opened Containers
  import opened Scoring

  /* ----- switch_hands ----- */

  /** The hands after passing: seat 0 receives the last seat's hand, every other seat its left neighbour's. */
  function Rotated<T>(hs: seq<T>): (r: seq<T>)
    requires |hs| > 0
    ensures |r| == |hs| && multiset(r) == multiset(hs)
  {
    assert hs == hs[..|hs| - 1] + [hs[|hs| - 1]];
    [hs[|hs| - 1]] + hs[..|hs| - 1]
  }

  /** Passing moves every hand one seat on: seat 0 gets the last hand and seat `i` the hand of seat `i - 1`. */
  lemma RotatedSeats<T>(hs: seq<T>)
    requires |hs| > 0
    ensures |Rotated(hs)| == |hs|
    ensures Rotated(hs)[0] == hs[|hs| - 1]
    ensures forall i :: 0 < i < |hs| ==> Rotated(hs)[i] == hs[i - 1]
  {
  }

  /** Passing `k` times. */
  function RotatedTimes<T>(hs: seq<T>, k: nat): (r: seq<T>)
    requires |hs| > 0
    ensures |r| == |hs|
  {
    if k == 0 then hs else Rotated(RotatedTimes(hs, k - 1))
  }

  /** After `k` passes the last `k` hands sit, in order, in the first `k` seats. */
  lemma {:induction false} RotatedTimesSplit<T>(hs: seq<T>, k: nat)
    requires 0 < |hs| && k <= |hs|
    ensures RotatedTimes(hs, k) == hs[|hs| - k..] + hs[..|hs| - k]
  {
    if k > 0 {
      RotatedTimesSplit(hs, k - 1);
      SplitStep(hs, k);
    }
  }

  /** One more pass turns the split after `k - 1` passes into the split after `k`. */
  lemma SplitStep<T>(hs: seq<T>, k: nat)
    requires 0 < k <= |hs|
    ensures var n, prev := |hs|, hs[|hs| - (k - 1)..] + hs[..|hs| - (k - 1)];
      [prev[n - 1]] + prev[..n - 1] == hs[n - k..] + hs[..n - k]
  {
    var n, prev := |hs|, hs[|hs| - (k - 1)..] + hs[..|hs| - (k - 1)];
    assert prev[n - 1] == hs[n - k];
    assert prev[..n - 1] == hs[n - k + 1..] + hs[..n - k];
    assert hs[n - k..] == [hs[n - k]] + hs[n - k + 1..];
  }

  /** After one pass per seat every hand is back with its first holder. */
  lemma FullCircle<T>(hs: seq<T>)
    requires |hs| > 0
    ensures RotatedTimes(hs, |hs|) == hs
  {
    RotatedTimesSplit(hs, |hs|);
  }

  /**
   * `switch_hands`: reassigns the players' hand references, each hand passing
   * one seat on (the hands themselves are untouched); by `RotatedFrom` the
   * new seating is `Rotated` of the old one.
   */
  method SwitchHands(players: seq<Player>)
    requires |players| > 0 && DistinctPlayers(players)
    modifies players
    ensures players[0].hand == old(players[|players| - 1].hand)
    ensures forall k :: 0 < k < |players| ==> players[k].hand == old(players[k - 1].hand)
    ensures forall k :: 0 <= k < |players| ==> players[k].score == old(players[k].score)
  {
    var lastHand := players[|players| - 1].hand;
    PassAlong(players);
    SetHand(players, 0, lastHand);
  }

  /** The loop of `switch_hands`: from the last seat down to seat 1, each seat takes its left neighbour's hand. */
  method PassAlong(players: seq<Player>)
    requires |players| > 0 && DistinctPlayers(players)
    modifies players
    ensures forall k :: 0 < k < |players| ==> players[k].hand == old(players[k - 1].hand)
    ensures forall k :: 0 <= k < |players| ==> players[k].score == old(players[k].score)
  {
    var n := |players|;
    for i := n downto 0
      invariant forall k :: 0 <= k < i ==> players[k].hand == old(players[k].hand)
      invariant forall k :: i <= k < n && 0 < k ==> players[k].hand == old(players[k - 1].hand)
      invariant forall k :: 0 <= k < n ==> players[k].score == old(players[k].score)
    {
      if i > 0 {
        PassHand(players, i);
      }
    }
  }

  /** A seating where seat 0 holds the last hand and seat `i` the hand of seat `i - 1` is the rotation. */
  lemma RotatedFrom<T>(before: seq<T>, after: seq<T>)
    requires |before| == |after| > 0
    requires after[0] == before[|before| - 1]
    requires forall k :: 0 < k < |after| ==> after[k] == before[k - 1]
    ensures after == Rotated(before)
  {
  }

  /** Seat `i` takes the hand of seat `i - 1`; nothing else changes. */
  method PassHand(players: seq<Player>, i: nat)
    requires 0 < i < |players| && DistinctPlayers(players)
    modifies players[i]
    ensures forall k :: 0 <= k < |players| ==>
      players[k].hand == (if k == i then old(players[i - 1].hand) else old(players[k].hand))
      && players[k].score == old(players[k].score)
  {
    SetHand(players, i, players[i - 1].hand);
  }

  /** Seat `i` is given hand `h`; nothing else changes. */
  method SetHand(players: seq<Player>, i: nat, h: Hand)
    requires i < |players| && DistinctPlayers(players)
    modifies players[i]
    ensures forall k :: 0 <= k < |players| ==>
      players[k].hand == (if k == i then h else old(players[k].hand))
      && players[k].score == old(players[k].score)
  {
    players[i].hand := h;
  }

  /* ----- reset_turn ----- */

  /** One donut deck position, as its card and flags. */
  datatype Slot = Slot(card: Card, taken: bool, toDiscard: bool)

  /** The positions with the draw pile and the discard pile (both with their top last). */
  datatype Table = Table(slots: seq<Slot>, deck: seq<Card>, discard: seq<Card>)

  /** The position needs refilling: its card was taken, or contested and thrown away. */
  predicate Flagged(s: Slot)
  {
    s.taken || s.toDiscard
  }

  /** How many of `slots` need refilling. */
  function FlaggedCount(slots: seq<Slot>): (r: nat)
    ensures r <= |slots|
  {
    if slots == [] then 0
    else FlaggedCount(slots[..|slots| - 1]) + (if Flagged(slots[|slots| - 1]) then 1 else 0)
  }

  /** The cards thrown away, in position order: contested ones that nobody took. */
  function Contested(slots: seq<Slot>): (r: seq<Card>)
    ensures |r| <= FlaggedCount(slots)
  {
    if slots == [] then []
    else
      var s := slots[|slots| - 1];
      Contested(slots[..|slots| - 1]) + (if !s.taken && s.toDiscard then [s.card] else [])
  }

  /** One pass of the refill loop at position `i`: a taken card is replaced, a contested one discarded and replaced. */
  function RefillSlot(t: Table, i: nat): (r: Table)
    requires i < |t.slots|
    requires Flagged(t.slots[i]) ==> |t.deck| > 0
    ensures |r.slots| == |t.slots| && !Flagged(r.slots[i])
    ensures |r.deck| == |t.deck| - if Flagged(t.slots[i]) then 1 else 0
  {
    var s := t.slots[i];
    if !Flagged(s) then t
    else
      var refilled := Slot(t.deck[|t.deck| - 1], false, false);
      Table(t.slots[i := refilled], t.deck[..|t.deck| - 1],
            if s.taken then t.discard else t.discard + [s.card])
  }

  /** The refill loop run over the first `k` positions, without stopping. */
  function RefillUpTo(t: Table, k: nat): (r: Table)
    requires k <= |t.slots| && FlaggedCount(t.slots[..k]) <= |t.deck|
    ensures |r.slots| == |t.slots|
    ensures forall i :: k <= i < |t.slots| ==> r.slots[i] == t.slots[i]
    ensures |r.deck| == |t.deck| - FlaggedCount(t.slots[..k])
  {
    if k == 0 then t
    else
      assert t.slots[..k - 1] == t.slots[..k][..k - 1];
      RefillSlot(RefillUpTo(t, k - 1), k - 1)
  }

  /** The whole refill: every position that needs it is refilled. */
  function Refill(t: Table): (r: Table)
    requires FlaggedCount(t.slots) <= |t.deck|
    ensures |r.slots| == |t.slots| && |r.deck| == |t.deck| - FlaggedCount(t.slots)
  {
    assert t.slots[..|t.slots|] == t.slots;
    RefillUpTo(t, |t.slots|)
  }

  /** After the loop has run over the first `k` positions the draw pile has lost one top card per refill. */
  lemma {:induction false} RefillUpToDeck(t: Table, k: nat)
    requires k <= |t.slots| && FlaggedCount(t.slots[..k]) <= |t.deck|
    ensures RefillUpTo(t, k).deck == t.deck[..|t.deck| - FlaggedCount(t.slots[..k])]
  {
    if k > 0 {
      assert t.slots[..k - 1] == t.slots[..k][..k - 1];
      RefillUpToDeck(t, k - 1);
    }
  }

  /** ... and the discard pile has gained the contested cards, in position order. */
  lemma {:induction false} RefillUpToDiscard(t: Table, k: nat)
    requires k <= |t.slots| && FlaggedCount(t.slots[..k]) <= |t.deck|
    ensures RefillUpTo(t, k).discard == t.discard + Contested(t.slots[..k])
  {
    if k > 0 {
      assert t.slots[..k - 1] == t.slots[..k][..k - 1];
      RefillUpToDiscard(t, k - 1);
    }
  }

  /** What position `i` holds once the loop has passed it: its own card if unflagged, else the card drawn for it. */
  function RefilledSlot(t: Table, i: nat): Slot
    requires i < |t.slots| && FlaggedCount(t.slots[..i + 1]) <= |t.deck|
  {
    assert t.slots[..i + 1][..i] == t.slots[..i];
    if Flagged(t.slots[i]) then Slot(t.deck[|t.deck| - 1 - FlaggedCount(t.slots[..i])], false, false)
    else t.slots[i]
  }

  /** One more pass of the loop fills position `k - 1` as `RefilledSlot` says. */
  lemma RefillUpToStep(t: Table, k: nat)
    requires 0 < k <= |t.slots| && FlaggedCount(t.slots[..k]) <= |t.deck|
    ensures RefillUpTo(t, k).slots == RefillUpTo(t, k - 1).slots[k - 1 := RefilledSlot(t, k - 1)]
  {
    assert t.slots[..k][..k - 1] == t.slots[..k - 1];
    RefillUpToDeck(t, k - 1);
  }

  /** ... and the positions the loop has passed hold what `RefilledSlot` says. */
  lemma {:induction false} RefillUpToSlots(t: Table, k: nat)
    requires k <= |t.slots| && FlaggedCount(t.slots[..k]) <= |t.deck|
    ensures forall i :: 0 <= i < k ==>
      FlaggedCount(t.slots[..i + 1]) <= |t.deck| && RefillUpTo(t, k).slots[i] == RefilledSlot(t, i)
  {
    if k > 0 {
      assert t.slots[..k][..k - 1] == t.slots[..k - 1];
      RefillUpToSlots(t, k - 1);
      RefillUpToStep(t, k);
      forall j | 0 < j <= k
        ensures FlaggedCount(t.slots[..j]) <= |t.deck|
      {
        assert t.slots[..j] == t.slots[..k][..j];
        FlaggedPrefix(t.slots[..k], j);
      }
    }
  }

  /** Extending a prefix by one position adds that position's share to each count. */
  lemma PrefixStep(slots: seq<Slot>, k: nat)
    requires k < |slots|
    ensures FlaggedCount(slots[..k + 1]) == FlaggedCount(slots[..k]) + (if Flagged(slots[k]) then 1 else 0)
    ensures Contested(slots[..k + 1])
         == Contested(slots[..k]) + (if !slots[k].taken && slots[k].toDiscard then [slots[k].card] else [])
  {
    assert slots[..k + 1][..k] == slots[..k];
  }

  /** Fewer positions never need more refills. */
  lemma {:induction false} FlaggedPrefix(slots: seq<Slot>, i: nat)
    requires i <= |slots|
    ensures FlaggedCount(slots[..i]) <= FlaggedCount(slots)
  {
    if i == |slots| {
      assert slots[..i] == slots;
    } else {
      assert slots[..i] == slots[..|slots| - 1][..i];
      FlaggedPrefix(slots[..|slots| - 1], i);
    }
  }

  /**
   * `reset_turn` refills every position that needs it: none is left flagged,
   * an untouched position keeps its card, the `j`-th flagged position (in
   * position order) receives the `j`-th card drawn from the top of the pile,
   * the pile loses exactly those cards and the discard pile gains the
   * contested cards, in position order.
   */
  lemma RefillSpec(t: Table)
    requires FlaggedCount(t.slots) <= |t.deck|
    ensures |Refill(t).slots| == |t.slots|
    ensures forall i :: 0 <= i < |t.slots| ==> !Flagged(Refill(t).slots[i])
    ensures forall i :: 0 <= i < |t.slots| && !Flagged(t.slots[i]) ==> Refill(t).slots[i] == t.slots[i]
    ensures forall i :: 0 <= i < |t.slots| && Flagged(t.slots[i]) ==>
      FlaggedCount(t.slots[..i]) < |t.deck| &&
      Refill(t).slots[i] == Slot(t.deck[|t.deck| - 1 - FlaggedCount(t.slots[..i])], false, false)
    ensures Refill(t).deck == t.deck[..|t.deck| - FlaggedCount(t.slots)]
    ensures Refill(t).discard == t.discard + Contested(t.slots)
  {
    RefillPositions(t);
    RefillPiles(t);
  }

  /** The pile half of `RefillSpec`. */
  lemma RefillPiles(t: Table)
    requires FlaggedCount(t.slots) <= |t.deck|
    ensures Refill(t).deck == t.deck[..|t.deck| - FlaggedCount(t.slots)]
    ensures Refill(t).discard == t.discard + Contested(t.slots)
  {
    var n := |t.slots|;
    assert t.slots[..n] == t.slots;
    RefillUpToDeck(t, n);
    RefillUpToDiscard(t, n);
  }

  /** The position-by-position half of `RefillSpec`. */
  lemma RefillPositions(t: Table)
    requires FlaggedCount(t.slots) <= |t.deck|
    ensures |Refill(t).slots| == |t.slots|
    ensures forall i :: 0 <= i < |t.slots| ==> !Flagged(Refill(t).slots[i])
    ensures forall i :: 0 <= i < |t.slots| && !Flagged(t.slots[i]) ==> Refill(t).slots[i] == t.slots[i]
    ensures forall i :: 0 <= i < |t.slots| && Flagged(t.slots[i]) ==>
      FlaggedCount(t.slots[..i]) < |t.deck| &&
      Refill(t).slots[i] == Slot(t.deck[|t.deck| - 1 - FlaggedCount(t.slots[..i])], false, false)
  {
    forall i | 0 <= i < |t.slots|
      ensures !Flagged(Refill(t).slots[i])
      ensures !Flagged(t.slots[i]) ==> Refill(t).slots[i] == t.slots[i]
      ensures Flagged(t.slots[i]) ==>
        FlaggedCount(t.slots[..i]) < |t.deck| &&
        Refill(t).slots[i] == Slot(t.deck[|t.deck| - 1 - FlaggedCount(t.slots[..i])], false, false)
    {
      RefillAt(t, i);
      RefilledSlotFacts(t, i);
    }
  }

  /** Once the whole loop has run, position `i` holds what `RefilledSlot` says. */
  lemma RefillAt(t: Table, i: nat)
    requires FlaggedCount(t.slots) <= |t.deck| && i < |t.slots|
    ensures FlaggedCount(t.slots[..i + 1]) <= |t.deck| && Refill(t).slots[i] == RefilledSlot(t, i)
  {
    var n := |t.slots|;
    assert t.slots[..n] == t.slots;
    assert Refill(t) == RefillUpTo(t, n);
    FlaggedPrefix(t.slots, i + 1);
    RefillUpToSlots(t, n);
    assert RefillUpTo(t, n).slots[i] == RefilledSlot(t, i);
  }

  /** What `RefilledSlot` puts in a position never needs refilling, and is its own card or the drawn one. */
  lemma RefilledSlotFacts(t: Table, i: nat)
    requires i < |t.slots| && FlaggedCount(t.slots[..i + 1]) <= |t.deck|
    ensures !Flagged(RefilledSlot(t, i))
    ensures !Flagged(t.slots[i]) ==> RefilledSlot(t, i) == t.slots[i]
    ensures Flagged(t.slots[i]) ==>
      FlaggedCount(t.slots[..i]) < |t.deck| &&
      RefilledSlot(t, i) == Slot(t.deck[|t.deck| - 1 - FlaggedCount(t.slots[..i])], false, false)
  {
    assert t.slots[..i + 1][..i] == t.slots[..i];
  }

  /** `FlaggedCount` and `Contested` add up over concatenation. */
  lemma {:induction false} SplitCounts(a: seq<Slot>, b: seq<Slot>)
    ensures FlaggedCount(a + b) == FlaggedCount(a) + FlaggedCount(b)
    ensures Contested(a + b) == Contested(a) + Contested(b)
  {
    if b != [] {
      assert (a + b)[..|a + b| - 1] == a + b[..|b| - 1];
      assert (a + b)[|a + b| - 1] == b[|b| - 1];
      SplitCounts(a, b[..|b| - 1]);
    } else {
      assert a + b == a;
    }
  }

  /** No position needs refilling exactly when the count is zero, and then nothing is contested. */
  lemma {:induction false} NoneFlagged(slots: seq<Slot>)
    ensures FlaggedCount(slots) == 0 <==> forall i :: 0 <= i < |slots| ==> !Flagged(slots[i])
    ensures FlaggedCount(slots) == 0 ==> Contested(slots) == []
  {
    if slots != [] {
      NoneFlagged(slots[..|slots| - 1]);
      assert forall i :: 0 <= i < |slots| - 1 ==> slots[..|slots| - 1][i] == slots[i];
    }
  }

  /** The face-up cards. */
  function FaceUp(slots: seq<Slot>): (r: seq<Card>)
    ensures |r| == |slots| && forall i :: 0 <= i < |slots| ==> r[i] == slots[i].card
  {
    seq(|slots|, i requires 0 <= i < |slots| => slots[i].card)
  }

  /** The cards players took, in position order. */
  function TakenCards(slots: seq<Slot>): seq<Card>
  {
    if slots == [] then []
    else
      var s := slots[|slots| - 1];
      TakenCards(slots[..|slots| - 1]) + (if s.taken then [s.card] else [])
  }

  /** Every card on the table before the refill is afterwards face up, in a pile, or with a player. */
  function Stock(t: Table): multiset<Card>
  {
    multiset(FaceUp(t.slots)) + multiset(t.deck) + multiset(t.discard)
  }

  /** One pass of the loop moves cards about but neither makes nor loses one. */
  lemma RefillSlotConserves(t: Table, i: nat)
    requires i < |t.slots| && (Flagged(t.slots[i]) ==> |t.deck| > 0)
    ensures Stock(RefillSlot(t, i)) + TakenFrom(t.slots[i]) == Stock(t)
  {
    if Flagged(t.slots[i]) {
      var top := t.deck[|t.deck| - 1];
      var r := RefillSlot(t, i);
      assert FaceUp(r.slots) == FaceUp(t.slots)[i := top];
      assert t.deck == r.deck + [top];
    }
  }

  /** The multiset of the cards a position holds if it was taken, none otherwise. */
  function TakenFrom(s: Slot): multiset<Card>
  {
    if s.taken then multiset{s.card} else multiset{}
  }

  /** One more pass of the loop loses from the table just the card taken at that position. */
  lemma RefillUpToStepConserves(t: Table, k: nat)
    requires 0 < k <= |t.slots| && FlaggedCount(t.slots[..k]) <= |t.deck|
    ensures FlaggedCount(t.slots[..k - 1]) <= |t.deck|
    ensures Stock(RefillUpTo(t, k)) + TakenFrom(t.slots[k - 1]) == Stock(RefillUpTo(t, k - 1))
    ensures multiset(TakenCards(t.slots[..k])) == multiset(TakenCards(t.slots[..k - 1])) + TakenFrom(t.slots[k - 1])
  {
    assert t.slots[..k][..k - 1] == t.slots[..k - 1];
    PrefixStep(t.slots, k - 1);
    RefillSlotConserves(RefillUpTo(t, k - 1), k - 1);
  }

  /** Moving one card from the players' side to the table's side keeps the balance. */
  lemma Regroup(table: multiset<Card>, before: multiset<Card>, start: multiset<Card>,
                taken: multiset<Card>, one: multiset<Card>)
    requires table + one == before && before + taken == start
    ensures table + (taken + one) == start
  {
    assert table + (taken + one) == (table + one) + taken;
  }

  /** Over the first `k` positions, the cards taken are exactly what the table lost. */
  lemma {:induction false} RefillUpToConserves(t: Table, k: nat)
    requires k <= |t.slots| && FlaggedCount(t.slots[..k]) <= |t.deck|
    ensures Stock(RefillUpTo(t, k)) + multiset(TakenCards(t.slots[..k])) == Stock(t)
  {
    if k > 0 {
      PrefixStep(t.slots, k - 1);
      RefillUpToConserves(t, k - 1);
      StepBalance(t, k);
    } else {
      assert t.slots[..0] == [];
    }
  }

  /** If the balance holds over the first `k - 1` positions, it holds over the first `k`. */
  lemma StepBalance(t: Table, k: nat)
    requires 0 < k <= |t.slots| && FlaggedCount(t.slots[..k]) <= |t.deck|
    requires FlaggedCount(t.slots[..k - 1]) <= |t.deck|
    requires Stock(RefillUpTo(t, k - 1)) + multiset(TakenCards(t.slots[..k - 1])) == Stock(t)
    ensures Stock(RefillUpTo(t, k)) + multiset(TakenCards(t.slots[..k])) == Stock(t)
  {
    RefillUpToStepConserves(t, k);
    Regroup(Stock(RefillUpTo(t, k)), Stock(RefillUpTo(t, k - 1)), Stock(t),
            multiset(TakenCards(t.slots[..k - 1])), TakenFrom(t.slots[k - 1]));
  }

  /** `reset_turn` neither makes nor loses a card: the table after the refill plus the cards taken is the table before. */
  lemma RefillConserves(t: Table)
    requires FlaggedCount(t.slots) <= |t.deck|
    ensures Stock(Refill(t)) + multiset(TakenCards(t.slots)) == Stock(t)
  {
    assert t.slots[..|t.slots|] == t.slots;
    RefillUpToConserves(t, |t.slots|);
  }

  /* ----- reset_turn as written ----- */

  /** The first position that needs refilling, if any. */
  function FirstFlagged(slots: seq<Slot>): (r: Option<nat>)
    ensures r.None? <==> forall i :: 0 <= i < |slots| ==> !Flagged(slots[i])
    ensures r.Some? ==>
      r.value < |slots| && Flagged(slots[r.value]) && forall i :: 0 <= i < r.value ==> !Flagged(slots[i])
  {
    if slots == [] then None
    else if Flagged(slots[0]) then Some(0)
    else match FirstFlagged(slots[1..])
      case None => None
      case Some(i) => Some(i + 1)
  }

  /**
   * The loop of `reset_turn` as it stands: both branches end in `break`, so
   * only the first position that needs refilling is refilled.
   */
  function RefillAsWritten(t: Table): (r: Table)
    requires FlaggedCount(t.slots) > 0 ==> |t.deck| > 0
    ensures |r.slots| == |t.slots|
    ensures |r.deck| == |t.deck| - if FlaggedCount(t.slots) > 0 then 1 else 0
  {
    NoneFlagged(t.slots);
    match FirstFlagged(t.slots)
      case None => t
      case Some(i) => RefillSlot(t, i)
  }

  /** Where the first flagged position sits, every other flagged position lies after it. */
  lemma FirstSplit(slots: seq<Slot>, i: nat)
    requires FirstFlagged(slots) == Some(i)
    ensures FlaggedCount(slots) == 1 + FlaggedCount(slots[i + 1..])
    ensures Contested(slots) == (if slots[i].taken then [] else [slots[i].card]) + Contested(slots[i + 1..])
  {
    var pre, mid, rest := slots[..i], [slots[i]], slots[i + 1..];
    ClearPrefix(slots, i);
    assert slots == pre + mid + rest;
    SplitCounts(pre + mid, rest);
    SplitCounts(pre, mid);
    assert FlaggedCount(mid) == 1 && Contested(mid) == (if slots[i].taken then [] else [slots[i].card]) by {
      assert mid[..0] == [];
    }
  }

  /** A prefix with no flagged position counts none and contests nothing. */
  lemma ClearPrefix(slots: seq<Slot>, i: nat)
    requires i <= |slots| && forall j :: 0 <= j < i ==> !Flagged(slots[j])
    ensures FlaggedCount(slots[..i]) == 0 && Contested(slots[..i]) == []
  {
    NoneFlagged(slots[..i]);
    assert forall j :: 0 <= j < i ==> slots[..i][j] == slots[j];
  }

  /** With two or more positions to refill, the loop as written leaves one of them flagged. */
  lemma AsWrittenLeavesFlag(t: Table)
    requires FlaggedCount(t.slots) >= 2 && |t.deck| > 0
    ensures exists j :: 0 <= j < |t.slots| && Flagged(RefillAsWritten(t).slots[j])
  {
    NoneFlagged(t.slots);
    var i := FirstFlagged(t.slots).value;
    FirstSplit(t.slots, i);
    var rest := t.slots[i + 1..];
    NoneFlagged(rest);
    var j :| 0 <= j < |rest| && Flagged(rest[j]);
    assert Flagged(RefillAsWritten(t).slots[i + 1 + j]);
  }

  /** With at most one position to refill, the loop as written does the whole refill. */
  lemma AsWrittenAgreesOnOne(t: Table)
    requires FlaggedCount(t.slots) <= 1 && FlaggedCount(t.slots) <= |t.deck|
    ensures RefillAsWritten(t) == Refill(t)
  {
    NoneFlagged(t.slots);
    if FlaggedCount(t.slots) == 0 {
      AgreeOnNone(t);
    } else {
      AgreeOnOne(t, FirstFlagged(t.slots).value);
    }
  }

  lemma AgreeOnNone(t: Table)
    requires FlaggedCount(t.slots) == 0
    ensures Refill(t) == t
  {
    RefillSpec(t);
    NoneFlagged(t.slots);
    assert t.deck[..|t.deck|] == t.deck;
    assert Refill(t).slots == t.slots;
  }

  /** When a single position needs refilling, it is the only flagged one and nothing precedes it. */
  lemma OnlyFlagged(slots: seq<Slot>, i: nat)
    requires FlaggedCount(slots) == 1 && FirstFlagged(slots) == Some(i)
    ensures forall j :: 0 <= j < |slots| && j != i ==> !Flagged(slots[j])
    ensures FlaggedCount(slots[..i]) == 0
    ensures Contested(slots) == if slots[i].taken then [] else [slots[i].card]
  {
    FirstSplit(slots, i);
    ClearPrefix(slots, i);
    var rest := slots[i + 1..];
    assert Contested(rest) == [] && forall j :: 0 <= j < |rest| ==> !Flagged(rest[j]) by {
      NoneFlagged(rest);
    }
    forall j | i < j < |slots|
      ensures !Flagged(slots[j])
    {
      assert slots[j] == rest[j - i - 1];
    }
  }

  lemma AgreeOnOne(t: Table, i: nat)
    requires FlaggedCount(t.slots) == 1 <= |t.deck| && FirstFlagged(t.slots) == Some(i)
    ensures Refill(t) == RefillSlot(t, i)
  {
    OnlyFlagged(t.slots, i);
    RefillSpec(t);
    AgreeOnOneSlots(t, i);
  }

  /** ... position by position. */
  lemma AgreeOnOneSlots(t: Table, i: nat)
    requires FlaggedCount(t.slots) == 1 <= |t.deck| && i < |t.slots| && Flagged(t.slots[i])
    requires FlaggedCount(t.slots[..i]) == 0
    requires forall j :: 0 <= j < |t.slots| && j != i ==> !Flagged(t.slots[j])
    ensures Refill(t).slots == RefillSlot(t, i).slots
  {
    var r, s := Refill(t), RefillSlot(t, i);
    assert |r.slots| == |s.slots| by {
      RefillSpec(t);
    }
    forall j | 0 <= j < |t.slots|
      ensures r.slots[j] == s.slots[j]
    {
      if j == i {
        RefillFirst(t, i);
      } else {
        RefillKeeps(t, j);
      }
    }
  }

  /** A position with nothing flagged before it gets the pile's top card. */
  lemma RefillFirst(t: Table, i: nat)
    requires FlaggedCount(t.slots) <= |t.deck| && i < |t.slots| && Flagged(t.slots[i])
    requires FlaggedCount(t.slots[..i]) == 0
    ensures |t.deck| > 0 && Refill(t).slots[i] == Slot(t.deck[|t.deck| - 1], false, false)
  {
    RefillSpec(t);
  }

  /** A position that needs no refill keeps its slot. */
  lemma RefillKeeps(t: Table, j: nat)
    requires FlaggedCount(t.slots) <= |t.deck| && j < |t.slots| && !Flagged(t.slots[j])
    ensures Refill(t).slots[j] == t.slots[j]
  {
    RefillSpec(t);
  }

  /* ----- the partial-picks scenario ----- */

  /** The unshuffled stack built from `OneOfEach`, written out card by card. */
  function NineCards(): seq<Card>
  {
    [Card(0, 0, FrenchCruller), Card(1, 1, Powdered), Card(2, 2, Plain), Card(3, 3, MapleBar),
     Card(4, 4, JellyFilled), Card(5, 5, Glazed), Card(6, 6, Eclair), Card(7, 7, DonutHoles),
     Card(8, 8, ChocolateFrosted)]
  }

  /** It is the stack `Deck.create` builds from `OneOfEach`. */
  lemma NineCardsBuilt()
    ensures NineCards() == Catalog(OneOfEach())
  {
    OneOfEachCards();
  }

  /**
   * The table of the partial-picks scenario, dealt from that stack:
   * positions hold cards 8, 7, 6, 5 and 4; two players chose card 8
   * (contested), others took 6 and 5; cards 0 to 3 remain in the pile, 3 on
   * top.
   */
  function PartialPicks(): (t: Table)
    ensures FlaggedCount(t.slots) == 3 && |t.deck| == 4
  {
    var c := NineCards();
    var slots := [Slot(c[8], false, true), Slot(c[7], false, false), Slot(c[6], true, false),
                  Slot(c[5], true, false), Slot(c[4], false, false)];
    assert FlaggedCount(slots) == 3 by {
      assert slots[..0] == [] && slots[..5] == slots;
      PrefixStep(slots, 0); PrefixStep(slots, 1); PrefixStep(slots, 2); PrefixStep(slots, 3); PrefixStep(slots, 4);
    }
    Table(slots, c[..4], [])
  }

  /**
   * Refilling that table: position 0 gets card 3 (MB), 1 keeps 7 (DH), 2 gets
   * 2 (P), 3 gets 1 (POW), 4 keeps 4; card 0 is left in the pile and the
   * contested card 8 is discarded.
   */
  lemma PartialPicksRefill()
    ensures var r := Refill(PartialPicks());
      |r.slots| == 5
      && [r.slots[0].card.id, r.slots[1].card.id, r.slots[2].card.id, r.slots[3].card.id, r.slots[4].card.id]
         == [3, 7, 2, 1, 4]
      && r.slots[0].card.kind == MapleBar && r.slots[1].card.kind == DonutHoles
      && r.slots[2].card.kind == Plain && r.slots[3].card.kind == Powdered
      && |r.deck| == 1 && r.deck[0].id == 0
      && |r.discard| == 1 && r.discard[0].id == 8
  {
    var t := PartialPicks();
    var d := t.deck;
    RefillPattern(t);
    assert d == [Card(0, 0, FrenchCruller), Card(1, 1, Powdered), Card(2, 2, Plain), Card(3, 3, MapleBar)];
  }

  /**
   * Refilling five positions of which the first is contested, the third and
   * fourth were taken and the others are untouched.
   */
  lemma RefillPattern(t: Table)
    requires |t.slots| == 5 && |t.deck| >= 3
    requires !t.slots[0].taken && t.slots[0].toDiscard && t.slots[2].taken && t.slots[3].taken
    requires !Flagged(t.slots[1]) && !Flagged(t.slots[4])
    ensures FlaggedCount(t.slots) == 3
    ensures var n := |t.deck|;
      Refill(t).slots == [Slot(t.deck[n - 1], false, false), t.slots[1], Slot(t.deck[n - 2], false, false),
                          Slot(t.deck[n - 3], false, false), t.slots[4]]
      && Refill(t).deck == t.deck[..n - 3] && Refill(t).discard == t.discard + [t.slots[0].card]
  {
    var s := t.slots;
    var n := |t.deck|;
    assert FlaggedCount(s[..0]) == 0 && FlaggedCount(s[..2]) == 1 && FlaggedCount(s[..3]) == 2
      && FlaggedCount(s) == 3 && Contested(s) == [s[0].card] by {
      assert s[..0] == [] && s[..5] == s;
      PrefixStep(s, 0); PrefixStep(s, 1); PrefixStep(s, 2); PrefixStep(s, 3); PrefixStep(s, 4);
    }
    var r := Refill(t);
    assert |r.slots| == 5 && r.slots[1] == s[1] && r.slots[4] == s[4] by { RefillPositions(t); }
    assert r.slots[0] == Slot(t.deck[n - 1], false, false) by { RefillPositions(t); }
    assert r.slots[2] == Slot(t.deck[n - 2], false, false) by { RefillPositions(t); }
    assert r.slots[3] == Slot(t.deck[n - 3], false, false) by { RefillPositions(t); }
    assert r.deck == t.deck[..n - 3] && r.discard == t.discard + [s[0].card] by { RefillPiles(t); }
  }

  /** The loop as written refills only position 0, leaving the taken cards 6 and 5 in positions 2 and 3. */
  lemma PartialPicksAsWritten()
    ensures var r := RefillAsWritten(PartialPicks());
      |r.slots| == 5
      && [r.slots[0].card.id, r.slots[1].card.id, r.slots[2].card.id, r.slots[3].card.id, r.slots[4].card.id]
         == [3, 7, 6, 5, 4]
      && r.slots[2].taken && r.slots[3].taken
      && |r.deck| == 3 && |r.discard| == 1 && r.discard[0].id == 8
  {
    var t := PartialPicks();
    assert FirstFlagged(t.slots) == Some(0);
  }

  /* ----- reset_turn on the game's objects ----- */

  /** The cards and flags of the positions, in order. */
  function Slots(positions: array<DonutDeckPosition>): (r: seq<Slot>)
    reads positions, set i | 0 <= i < positions.Length :: positions[i]
    ensures |r| == positions.Length
    ensures forall i :: 0 <= i < positions.Length ==>
      r[i] == Slot(positions[i].card, positions[i].taken, positions[i].toDiscard)
  {
    seq(positions.Length, i reads positions, set i | 0 <= i < positions.Length :: positions[i]
                            requires 0 <= i < positions.Length =>
          Slot(positions[i].card, positions[i].taken, positions[i].toDiscard))
  }

  /** The positions with the draw pile and the discard pile. */
  function TableOf(positions: array<DonutDeckPosition>, deck: Deck, discard: Discard): (t: Table)
    reads positions, set i | 0 <= i < positions.Length :: positions[i], deck, discard
    ensures t.slots == Slots(positions) && t.deck == deck.cards && t.discard == discard.cards
  {
    Table(Slots(positions), deck.cards, discard.cards)
  }

  /** `DonutDeckPosition(self.deck.draw(1))`: position `i` is replaced by a new one holding the pile's top card. */
  method Replace(positions: array<DonutDeckPosition>, i: nat, deck: Deck)
    requires i < positions.Length && deck.cards != []
    modifies positions, deck`cards
    ensures Slots(positions) == old(Slots(positions))[i := Slot(old(deck.cards)[|old(deck.cards)| - 1], false, false)]
    ensures deck.cards == old(deck.cards)[..|old(deck.cards)| - 1]
  {
    TopStep(deck.cards, 0);
    var drawn := deck.Draw(1);
    positions[i] := new DonutDeckPosition(drawn[0]);
  }

  /** The body of the loop of `reset_turn` at position `i`. */
  method RefillPosition(positions: array<DonutDeckPosition>, i: nat, deck: Deck, discard: Discard)
    requires i < positions.Length
    requires positions[i].taken || positions[i].toDiscard ==> deck.cards != []
    modifies positions, deck`cards, discard`cards
    ensures TableOf(positions, deck, discard) == RefillSlot(old(TableOf(positions, deck, discard)), i)
  {
    if positions[i].taken {
      Replace(positions, i, deck);
    } else if positions[i].toDiscard {
      discard.Add([positions[i].card]);
      Replace(positions, i, deck);
    }
  }

  /** The loop's next pass is one more `RefillSlot`, and the pile still holds a card when it needs one. */
  lemma LoopStep(t: Table, i: nat)
    requires i < |t.slots| && FlaggedCount(t.slots) <= |t.deck|
    ensures FlaggedCount(t.slots[..i]) <= FlaggedCount(t.slots[..i + 1]) <= |t.deck|
    ensures Flagged(t.slots[i]) ==> RefillUpTo(t, i).deck != []
    ensures RefillUpTo(t, i + 1) == RefillSlot(RefillUpTo(t, i), i)
  {
    FlaggedPrefix(t.slots, i + 1);
    PrefixStep(t.slots, i);
    assert t.slots[..i + 1][..i] == t.slots[..i];
  }

  /**
   * `reset_turn` after the first turn, with the loop running over every
   * position (the intended behaviour): every taken position is refilled and
   * every contested one discarded and refilled.
   */
  method ResetTurn(positions: array<DonutDeckPosition>, deck: Deck, discard: Discard)
    requires FlaggedCount(Slots(positions)) <= |deck.cards|
    modifies positions, deck`cards, discard`cards
    ensures TableOf(positions, deck, discard) == Refill(old(TableOf(positions, deck, discard)))
  {
    ghost var t := TableOf(positions, deck, discard);
    assert t.slots[..positions.Length] == t.slots;
    for i := 0 to positions.Length
      invariant FlaggedCount(t.slots[..i]) <= |t.deck|
      invariant TableOf(positions, deck, discard) == RefillUpTo(t, i)
    {
      LoopStep(t, i);
      RefillPosition(positions, i, deck, discard);
    }
  }

  /** Where the loop as written meets its first flagged position, it refills that one and stops. */
  lemma StopsAt(t: Table, i: nat)
    requires FlaggedCount(t.slots) > 0 ==> |t.deck| > 0
    requires i < |t.slots| && Flagged(t.slots[i]) && forall j :: 0 <= j < i ==> !Flagged(t.slots[j])
    ensures |t.deck| > 0 && RefillAsWritten(t) == RefillSlot(t, i)
  {
    NoneFlagged(t.slots);
    assert FirstFlagged(t.slots) == Some(i);
  }

  /** `reset_turn` after the first turn, as written: the loop stops after the first refill. */
  method ResetTurnAsWritten(positions: array<DonutDeckPosition>, deck: Deck, discard: Discard)
    requires FlaggedCount(Slots(positions)) > 0 ==> |deck.cards| > 0
    modifies positions, deck`cards, discard`cards
    ensures TableOf(positions, deck, discard) == RefillAsWritten(old(TableOf(positions, deck, discard)))
  {
    ghost var t := TableOf(positions, deck, discard);
    NoneFlagged(t.slots);
    for i := 0 to positions.Length
      invariant TableOf(positions, deck, discard) == t
      invariant forall j :: 0 <= j < i ==> !Flagged(t.slots[j])
    {
      if positions[i].taken || positions[i].toDiscard {
        StopsAt(t, i);
        RefillPosition(positions, i, deck, discard);
        return;
      }
    }
    assert FirstFlagged(t.slots) == None;
  }
}
