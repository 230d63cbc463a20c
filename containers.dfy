/**
 * The list-backed card containers of `classes.py`: the draw pile (`Deck`),
 * the discard pile, a player's hand and tableau (`Position`), a market slot
 * (`DonutDeckPosition`) and the `Player` record.  Each keeps its cards in a
 * `cards` field that its methods reassign, as the source mutates its list;
 * the top of a stack is the END of the sequence.
 */
module Containers {
  import opened Wrappers
  import opened Cards

  /** Python list indexing: a negative index counts from the end. */
  function PyIndex<T>(s: seq<T>, i: int): (r: T)
    requires -|s| <= i < |s|
    ensures r == s[i % |s|]
  {
    if i < 0 then s[|s| + i] else s[i]
  }

  predicate InRange(cards: seq<Card>, newOrder: seq<int>)
  {
    forall k :: 0 <= k < |newOrder| ==> -|cards| <= newOrder[k] < |cards|
  }

  /** The cards `reorder` puts first: `cards[i]` for each `i` of `newOrder`, in that order. */
  function Requested(cards: seq<Card>, newOrder: seq<int>): (r: seq<Card>)
    requires InRange(cards, newOrder)
    ensures |r| == |newOrder| && forall k :: 0 <= k < |r| ==> r[k] in cards
  {
    seq(|newOrder|, k requires 0 <= k < |newOrder| => PyIndex(cards, newOrder[k]))
  }

  /** The cards whose id is not named in `newOrder`, in their present order. */
  function Unrequested(cards: seq<Card>, newOrder: seq<int>): (r: seq<Card>)
    ensures |r| <= |cards|
    ensures forall k :: 0 <= k < |r| ==> r[k] in cards && r[k].id !in newOrder
  {
    if cards == [] then []
    else
      var last := cards[|cards| - 1];
      Unrequested(cards[..|cards| - 1], newOrder) + (if last.id in newOrder then [] else [last])
  }

  /** The stack `reorder` leaves: requested then unrequested cards, reversed so the first is on top. */
  function Reordered(cards: seq<Card>, newOrder: seq<int>): (r: seq<Card>)
    requires InRange(cards, newOrder)
    ensures |r| == |newOrder| + |Unrequested(cards, newOrder)|
    ensures forall k :: 0 <= k < |r| ==> r[k] in cards
  {
    Reversed(Requested(cards, newOrder) + Unrequested(cards, newOrder))
  }

  /** Every card is its own index's id, as `reorder` assumes of a freshly built deck. */
  predicate IdsAreIndices(cards: seq<Card>)
  {
    forall j :: 0 <= j < |cards| ==> cards[j].id == j
  }

  predicate Distinct(xs: seq<int>)
  {
    forall a, b :: 0 <= a < b < |xs| ==> xs[a] != xs[b]
  }

  /**
   * After `reorder`, popping the deck yields the requested cards in the order
   * asked for, then every other card in its previous relative order.
   */
  lemma ReorderedDrawOrder(cards: seq<Card>, newOrder: seq<int>)
    requires InRange(cards, newOrder)
    ensures |newOrder| <= |Reordered(cards, newOrder)|
    ensures Top(Reordered(cards, newOrder), |newOrder|) == Requested(cards, newOrder)
    ensures Below(Reordered(cards, newOrder), |newOrder|) == Reversed(Unrequested(cards, newOrder))
  {
    var r := Requested(cards, newOrder);
    var u := Unrequested(cards, newOrder);
    var x := Reordered(cards, newOrder);
    ReversedAppend(r, u);
    assert x == Reversed(u) + Reversed(r);
    if |newOrder| > 0 {
      assert x[|x| - |newOrder|..] == Reversed(r);
      ReversedTwice(r);
      assert x[..|x| - |newOrder|] == Reversed(u);
    }
  }

  /** On a deck whose ids are its indices, the requested cards carry exactly the requested ids. */
  lemma {:induction false} ReorderedDrawsRequestedIds(cards: seq<Card>, newOrder: seq<int>)
    requires InRange(cards, newOrder) && IdsAreIndices(cards)
    requires forall k :: 0 <= k < |newOrder| ==> 0 <= newOrder[k]
    ensures |newOrder| <= |Reordered(cards, newOrder)|
    ensures forall k :: 0 <= k < |newOrder| ==>
              Top(Reordered(cards, newOrder), |newOrder|)[k].id == newOrder[k]
  {
    ReorderedDrawOrder(cards, newOrder);
  }

  lemma {:induction false} UnrequestedNone(cards: seq<Card>)
    ensures Unrequested(cards, []) == cards
  {
    if cards != [] {
      UnrequestedNone(cards[..|cards| - 1]);
    }
  }

  /** The cards of `cards` with id `x`, in order. */
  function WithId(cards: seq<Card>, x: int): seq<Card>
  {
    if cards == [] then []
    else
      var last := cards[|cards| - 1];
      WithId(cards[..|cards| - 1], x) + (if last.id == x then [last] else [])
  }

  /** Naming one more id moves exactly the cards with that id out of the unrequested ones. */
  lemma {:induction false} UnrequestedSplit(cards: seq<Card>, newOrder: seq<int>, x: int)
    requires x !in newOrder
    ensures multiset(Unrequested(cards, newOrder))
         == multiset(Unrequested(cards, newOrder + [x])) + multiset(WithId(cards, x))
  {
    if cards != [] {
      var init := cards[..|cards| - 1];
      var last := cards[|cards| - 1];
      UnrequestedSplit(init, newOrder, x);
      assert last.id in newOrder + [x] <==> last.id in newOrder || last.id == x;
    }
  }

  lemma {:induction false} WithIdOfIndices(cards: seq<Card>, x: int)
    requires IdsAreIndices(cards)
    ensures WithId(cards, x) == if 0 <= x < |cards| then [cards[x]] else []
  {
    if cards != [] {
      var init := cards[..|cards| - 1];
      assert IdsAreIndices(init);
      WithIdOfIndices(init, x);
    }
  }

  lemma {:induction false} ReversedMultiset<T>(s: seq<T>)
    ensures multiset(Reversed(s)) == multiset(s)
  {
    if s != [] {
      var init := s[..|s| - 1];
      ReversedMultiset(init);
      assert Reversed(s) == [s[|s| - 1]] + Reversed(init);
      assert s == init + [s[|s| - 1]];
    }
  }

  lemma {:induction false} SplitIsPermutation(cards: seq<Card>, newOrder: seq<int>)
    requires IdsAreIndices(cards) && Distinct(newOrder)
    requires forall k :: 0 <= k < |newOrder| ==> 0 <= newOrder[k] < |cards|
    ensures multiset(Requested(cards, newOrder)) + multiset(Unrequested(cards, newOrder)) == multiset(cards)
  {
    if newOrder == [] {
      UnrequestedNone(cards);
    } else {
      var init := newOrder[..|newOrder| - 1];
      var x := newOrder[|newOrder| - 1];
      assert newOrder == init + [x];
      var req, unreq, c := Requested(cards, init), Unrequested(cards, newOrder), cards[x];
      assert multiset(req) + multiset(Unrequested(cards, init)) == multiset(cards) by {
        assert Distinct(init);
        SplitIsPermutation(cards, init);
      }
      assert multiset(Unrequested(cards, init)) == multiset(unreq) + multiset{c} by {
        assert x !in init;
        UnrequestedSplit(cards, init, x);
        WithIdOfIndices(cards, x);
      }
      assert multiset(Requested(cards, newOrder)) == multiset(req) + multiset{c} by {
        RequestedSnoc(cards, init, x);
      }
    }
  }

  /** Naming one more index appends its card to the requested ones. */
  lemma RequestedSnoc(cards: seq<Card>, init: seq<int>, x: int)
    requires InRange(cards, init) && -|cards| <= x < |cards|
    ensures InRange(cards, init + [x])
    ensures Requested(cards, init + [x]) == Requested(cards, init) + [PyIndex(cards, x)]
  {
    assert forall k :: 0 <= k < |init| ==> (init + [x])[k] == init[k];
  }

  /**
   * With distinct indices on a deck whose ids are its indices, `reorder` only
   * permutes the deck: no card is lost or duplicated.
   */
  lemma ReorderPermutes(cards: seq<Card>, newOrder: seq<int>)
    requires IdsAreIndices(cards) && Distinct(newOrder)
    requires forall k :: 0 <= k < |newOrder| ==> 0 <= newOrder[k] < |cards|
    ensures multiset(Reordered(cards, newOrder)) == multiset(cards)
    ensures |Reordered(cards, newOrder)| == |cards|
  {
    SplitIsPermutation(cards, newOrder);
    ReversedMultiset(Requested(cards, newOrder) + Unrequested(cards, newOrder));
    assert |multiset(Reordered(cards, newOrder))| == |multiset(cards)|;
  }

  class Deck {
    /** The contents table the deck was built from. */
    const contents: seq<Entry>
    /** The draw pile; its last card is the top. */
    var cards: seq<Card>
    /** Snapshot of every card `create` built, never drawn from. */
    var baseDeck: seq<Card>

    /** `players` is accepted and unused, as in the source. */
    constructor (players: int, contents: seq<Entry>)
      ensures this.contents == contents
      ensures cards == Catalog(contents) && baseDeck == cards
    {
      this.contents := contents;
      cards := [];
      baseDeck := [];
      new;
      Create();
    }

    function Size(): nat
      reads this
    {
      |cards|
    }

    method Reorder(newOrder: seq<int>)
      requires InRange(cards, newOrder)
      modifies this`cards
      ensures cards == Reordered(old(cards), newOrder)
    {
      var newCardOrder := [];
      for k := 0 to |newOrder|
        invariant newCardOrder == Requested(cards, newOrder[..k])
      {
        newCardOrder := newCardOrder + [PyIndex(cards, newOrder[k])];
      }
      assert newOrder[..|newOrder|] == newOrder;
      for j := 0 to |cards|
        invariant newCardOrder == Requested(cards, newOrder) + Unrequested(cards[..j], newOrder)
      {
        assert cards[..j + 1][..j] == cards[..j];
        if cards[j].id !in newOrder {
          newCardOrder := newCardOrder + [cards[j]];
        }
      }
      assert cards[..|cards|] == cards;
      newCardOrder := Reversed(newCardOrder);
      cards := newCardOrder;
    }

    /** Pops `n` cards and returns them in the order popped. */
    method Draw(n: int) returns (drawn: seq<Card>)
      requires n <= |cards|
      modifies this`cards
      ensures drawn == Top(old(cards), n) && cards == Below(old(cards), n)
    {
      drawn := [];
      var x := 0;
      while x < n
        invariant 0 <= x <= |old(cards)| && (n >= 0 ==> x <= n) && (n <= 0 ==> x == 0)
        invariant drawn == Top(old(cards), x) && cards == Below(old(cards), x)
      {
        TopStep(old(cards), x);
        var c := DrawOne();
        drawn := drawn + [c];
        x := x + 1;
      }
      assert x == if n <= 0 then 0 else n;
    }

    method DrawOne() returns (c: Card)
      requires cards != []
      modifies this`cards
      ensures c == old(cards)[|old(cards)| - 1]
      ensures cards == old(cards)[..|old(cards)| - 1]
    {
      c := cards[|cards| - 1];
      cards := cards[..|cards| - 1];
    }

    method Add(cs: seq<Card>)
      modifies this`cards
      ensures cards == old(cards) + cs
    {
      for i := 0 to |cs|
        invariant cards == old(cards) + cs[..i]
      {
        cards := cards + [cs[i]];
      }
      assert cs[..|cs|] == cs;
    }

    method AddToBaseDeck(cs: seq<Card>)
      modifies this`baseDeck
      ensures baseDeck == old(baseDeck) + cs
    {
      for i := 0 to |cs|
        invariant baseDeck == old(baseDeck) + cs[..i]
      {
        baseDeck := baseDeck + [cs[i]];
      }
      assert cs[..|cs|] == cs;
    }

    /** Builds one card per copy of each contents entry, ids counting up from 0. */
    method Create()
      modifies this`cards, this`baseDeck
      ensures cards == old(cards) + Catalog(contents)
      ensures baseDeck == old(baseDeck) + Catalog(contents)
    {
      var cardId := 0;
      for order := 0 to |contents|
        invariant cardId == TotalCount(contents[..order])
        invariant cards == old(cards) + Catalog(contents[..order])
        invariant baseDeck == old(baseDeck) + Catalog(contents[..order])
      {
        var x := contents[order];
        ghost var done, block := Catalog(contents[..order]), Block(x, order, cardId);
        CatalogStep(contents, order);
        cardId := AddCopies(x, order, cardId);
        AppendAssoc(old(cards), done, block);
        AppendAssoc(old(baseDeck), done, block);
      }
      assert contents[..|contents|] == contents;
    }

    /** The inner loop of `create`: one card per copy of entry `x`, ids counting up from `start`. */
    method AddCopies(x: Entry, order: int, start: int) returns (next: int)
      modifies this`cards, this`baseDeck
      ensures next == start + x.count
      ensures cards == old(cards) + Block(x, order, start)
      ensures baseDeck == old(baseDeck) + Block(x, order, start)
    {
      next := start;
      for i := 0 to x.count
        invariant next == start + i
        invariant cards == old(cards) + Block(x, order, start)[..i]
        invariant baseDeck == old(baseDeck) + Block(x, order, start)[..i]
      {
        var card := [Card(next, order, x.kind)];
        assert Block(x, order, start)[..i + 1] == Block(x, order, start)[..i] + card;
        Add(card);
        AddToBaseDeck(card);
        next := next + 1;
      }
      assert Block(x, order, start)[..x.count] == Block(x, order, start);
    }
  }

  /**
   * Appending two pieces one after the other appends their concatenation:
   * a plain sequence fact, stated once so that `Create` can name it instead
   * of leaving the solver to find it.
   */
  lemma AppendAssoc<T>(a: seq<T>, b: seq<T>, c: seq<T>)
    ensures a + b + c == a + (b + c)
  {
  }

  /** A market slot: one face-up card and the two per-turn flags. */
  class DonutDeckPosition {
    const card: Card
    var taken: bool
    var toDiscard: bool

    constructor (card: Card)
      ensures this.card == card && !taken && !toDiscard
    {
      this.card := card;
      taken := false;
      toDiscard := false;
    }

    method GetCard() returns (c: Card)
      ensures c == card
    {
      c := card;
    }

    method SetTaken()
      modifies this`taken
      ensures taken
    {
      taken := true;
    }

    method SetToDiscard()
      modifies this`toDiscard
      ensures toDiscard
    {
      toDiscard := true;
    }
  }

  class Hand {
    var cards: seq<Card>

    constructor ()
      ensures cards == []
    {
      cards := [];
    }

    method Add(cs: seq<Card>)
      modifies this`cards
      ensures cards == old(cards) + cs
    {
      for i := 0 to |cs|
        invariant cards == old(cards) + cs[..i]
      {
        cards := cards + [cs[i]];
      }
      assert cs[..|cs|] == cs;
    }

    function Size(): nat
      reads this
    {
      |cards|
    }

    /** Removes and returns the first card named `name`; nothing happens if there is none. */
    method Pick(name: string) returns (picked: Option<Card>)
      modifies this`cards
      ensures match FindName(old(cards), name)
        case None => picked == None && cards == old(cards)
        case Some(i) => picked == Some(old(cards)[i]) && cards == RemoveAt(old(cards), i)
    {
      for i := 0 to |cards|
        invariant cards == old(cards)
        invariant forall k :: 0 <= k < i ==> cards[k].Name() != name
      {
        var c := cards[i];
        if c.Name() == name {
          FindNameAt(cards, name, i);
          cards := RemoveAt(cards, i);
          return Some(c);
        }
      }
      return None;
    }
  }

  class Discard {
    var cards: seq<Card>

    constructor ()
      ensures cards == []
    {
      cards := [];
    }

    method Add(cs: seq<Card>)
      modifies this`cards
      ensures cards == old(cards) + cs
    {
      for i := 0 to |cs|
        invariant cards == old(cards) + cs[..i]
      {
        cards := cards + [cs[i]];
      }
      assert cs[..|cs|] == cs;
    }

    method Draw(n: int) returns (drawn: seq<Card>)
      requires n <= |cards|
      modifies this`cards
      ensures drawn == Top(old(cards), n) && cards == Below(old(cards), n)
    {
      drawn := [];
      var x := 0;
      while x < n
        invariant 0 <= x <= |old(cards)| && (n >= 0 ==> x <= n) && (n <= 0 ==> x == 0)
        invariant drawn == Top(old(cards), x) && cards == Below(old(cards), x)
      {
        TopStep(old(cards), x);
        var c := DrawOne();
        drawn := drawn + [c];
        x := x + 1;
      }
      assert x == if n <= 0 then 0 else n;
    }

    method DrawOne() returns (c: Card)
      requires cards != []
      modifies this`cards
      ensures c == old(cards)[|old(cards)| - 1]
      ensures cards == old(cards)[..|old(cards)| - 1]
    {
      c := cards[|cards| - 1];
      cards := cards[..|cards| - 1];
    }

    /** The top card, or nothing on an empty pile; the pile is left as it is. */
    method PeekOne() returns (top: Option<Card>)
      ensures top.None? <==> cards == []
      ensures top.Some? ==> top.value == cards[|cards| - 1]
    {
      if |cards| == 0 {
        return None;
      }
      return Some(cards[|cards| - 1]);
    }

    function Size(): nat
      reads this
    {
      |cards|
    }
  }

  /** A player's tableau of claimed cards. */
  class Position {
    var cards: seq<Card>

    constructor ()
      ensures cards == []
    {
      cards := [];
    }

    method Add(cs: seq<Card>)
      modifies this`cards
      ensures cards == old(cards) + cs
    {
      for i := 0 to |cs|
        invariant cards == old(cards) + cs[..i]
      {
        cards := cards + [cs[i]];
      }
      assert cs[..|cs|] == cs;
    }

    method AddOne(card: Card)
      modifies this`cards
      ensures cards == old(cards) + [card]
    {
      cards := cards + [card];
    }

    function Size(): nat
      reads this
    {
      |cards|
    }

    /** Removes and returns the first card named `name`; nothing happens if there is none. */
    method Pick(name: string) returns (picked: Option<Card>)
      modifies this`cards
      ensures match FindName(old(cards), name)
        case None => picked == None && cards == old(cards)
        case Some(i) => picked == Some(old(cards)[i]) && cards == RemoveAt(old(cards), i)
    {
      for i := 0 to |cards|
        invariant cards == old(cards)
        invariant forall k :: 0 <= k < i ==> cards[k].Name() != name
      {
        var c := cards[i];
        if c.Name() == name {
          FindNameAt(cards, name, i);
          cards := RemoveAt(cards, i);
          return Some(c);
        }
      }
      return None;
    }
  }

  class Player {
    const id: string
    var score: int
    var hand: Hand
    const position: Position

    constructor (id: string)
      ensures this.id == id && score == 0
      ensures fresh(hand) && fresh(position) && hand.cards == [] && position.cards == []
    {
      this.id := id;
      score := 0;
      hand := new Hand();
      position := new Position();
    }
  }
}
