/**
 * Card values, the deck-contents table and the pure views of card stacks
 * (`classes.py`: the Card hierarchy and `Deck.create`).
 *
 * The source gives every card kind its own subclass with a name, a colour and
 * a display symbol; here one `Kind` enumerates them.  The scoring code of the
 * game environment still tests the card types of the Sushi Go game it was
 * derived from (tempura, sashimi, dumpling, maki, nigiri, pudding), which no
 * class in `classes.py` declares; those types are listed after the donut
 * kinds so that the scoring rules can be stated at all.
 */
module Cards {
  import opened Wrappers

  datatype Kind =
    | ChocolateFrosted | DonutHoles | Eclair | FrenchCruller | Glazed
    | JellyFilled | MapleBar | Plain | Powdered
    | BostonCream | DoubleChocolate | RedVelvet | Sprinkled
    | BearClaw | CinnamonTwist | Coffee | DayOldDonuts | Milk | OldFashioned
    | MapleFrosted | MuchoMatcha | RaspberryFrosted | StrawberryGlazed
    // card types read by the scoring code only
    | Tempura | Sashimi | Dumpling | Maki(value: int)
    | Nigiri(value: int, playedOnWasabi: bool) | Pudding
  {
    /** One of the 22 card classes declared by the donut game. */
    predicate IsDonut() {
      !(Tempura? || Sashimi? || Dumpling? || Maki? || Nigiri? || Pudding?)
    }

    /** The `name` (and `type`) string of the card class. */
    function Name(): string {
      match this
      case ChocolateFrosted => "chocolate_frosted"
      case DonutHoles => "donut_holes"
      case Eclair => "eclair"
      case FrenchCruller => "french_cruller"
      case Glazed => "glazed"
      case JellyFilled => "jelly_filled"
      case MapleBar => "maple_bar"
      case Plain => "plain"
      case Powdered => "powdered"
      case BostonCream => "boston_cream"
      case DoubleChocolate => "double_chocolate"
      case RedVelvet => "red_velvet"
      case Sprinkled => "sprinkled"
      case BearClaw => "bear_claw"
      case CinnamonTwist => "cinnamon_twist"
      case Coffee => "coffee"
      case DayOldDonuts => "day_old_donuts"
      case Milk => "milk"
      case OldFashioned => "old_fashioned"
      case MapleFrosted => "maple_frosted"
      case MuchoMatcha => "mucho_matcha"
      case RaspberryFrosted => "raspberry_frosted"
      case StrawberryGlazed => "strawberry_glazed"
      case Tempura => "tempura"
      case Sashimi => "sashimi"
      case Dumpling => "dumpling"
      case Maki(_) => "maki"
      case Nigiri(_, _) => "nigiri"
      case Pudding => "pudding"
    }

    /** The display symbol of a donut card class. */
    function Symbol(): string
      requires IsDonut()
    {
      match this
      case ChocolateFrosted => "CF"
      case DonutHoles => "DH"
      case Eclair => "ECL"
      case FrenchCruller => "FC"
      case Glazed => "GZ"
      case JellyFilled => "JF"
      case MapleBar => "MB"
      case Plain => "P"
      case Powdered => "POW"
      case BostonCream => "BC"
      case DoubleChocolate => "DC"
      case RedVelvet => "RV"
      case Sprinkled => "SPR"
      case BearClaw => "BEAR"
      case CinnamonTwist => "CT"
      case Coffee => "CFF"
      case DayOldDonuts => "DOD"
      case Milk => "MLK"
      case OldFashioned => "OLD"
      case MapleFrosted => "MF"
      case MuchoMatcha => "MM"
      case RaspberryFrosted => "RF"
      case StrawberryGlazed => "SG"
    }

    /** The colour group of a donut card class. */
    function Colour(): string
      requires IsDonut()
    {
      if ChocolateFrosted? || DonutHoles? || Eclair? || FrenchCruller? || Glazed?
         || JellyFilled? || MapleBar? || Plain? || Powdered? then "green"
      else if BostonCream? || DoubleChocolate? || RedVelvet? || Sprinkled? then "pink"
      else if MapleFrosted? || MuchoMatcha? || RaspberryFrosted? || StrawberryGlazed? then "blue"
      else "purple"
    }
  }

  /** An immutable card: its id in the deck, the index of its contents entry, its class. */
  datatype Card = Card(id: int, order: int, kind: Kind) {
    function Name(): string { kind.Name() }
  }

  /** One entry of a deck's contents table: a card class and how many copies. */
  datatype Entry = Entry(kind: Kind, count: nat)

  /** Number of cards a contents table describes. */
  function TotalCount(contents: seq<Entry>): nat
  {
    if contents == [] then 0
    else TotalCount(contents[..|contents| - 1]) + contents[|contents| - 1].count
  }

  /** The cards of one contents entry, ids counting up from `start`. */
  function Block(e: Entry, order: int, start: int): (b: seq<Card>)
    ensures |b| == e.count
    ensures forall j :: 0 <= j < |b| ==> b[j] == Card(start + j, order, e.kind)
  {
    seq(e.count, j => Card(start + j, order, e.kind))
  }

  /**
   * The card stack `Deck.create` builds: entry after entry in table order, each
   * entry's copies in a row, ids 0, 1, 2, ... and `order` the entry's index.
   */
  function Catalog(contents: seq<Entry>): (r: seq<Card>)
    ensures forall k :: 0 <= k < |r| ==> 0 <= r[k].order < |contents| && r[k].kind == contents[r[k].order].kind
  {
    if contents == [] then []
    else
      var init := contents[..|contents| - 1];
      Catalog(init) + Block(contents[|contents| - 1], |init|, TotalCount(init))
  }

  /** One more entry adds its count to the total. */
  lemma TotalStep(contents: seq<Entry>, o: nat)
    requires o < |contents|
    ensures TotalCount(contents[..o + 1]) == TotalCount(contents[..o]) + contents[o].count
  {
    assert contents[..o + 1][..o] == contents[..o];
  }

  /** One more entry appends its copies to the stack. */
  lemma CatalogStep(contents: seq<Entry>, o: nat)
    requires o < |contents|
    ensures Catalog(contents[..o + 1]) == Catalog(contents[..o]) + Block(contents[o], o, TotalCount(contents[..o]))
    ensures TotalCount(contents[..o + 1]) == TotalCount(contents[..o]) + contents[o].count
  {
    assert contents[..o + 1][..o] == contents[..o];
  }

  lemma {:induction false} CatalogSize(contents: seq<Entry>)
    ensures |Catalog(contents)| == TotalCount(contents)
  {
    if contents != [] {
      CatalogSize(contents[..|contents| - 1]);
    }
  }

  /** Card ids are consecutive from 0 in stack order. */
  lemma {:induction false} CatalogIds(contents: seq<Entry>)
    ensures forall k :: 0 <= k < |Catalog(contents)| ==> Catalog(contents)[k].id == k
  {
    if contents != [] {
      var init := contents[..|contents| - 1];
      CatalogIds(init);
      CatalogSize(init);
    }
  }

  /**
   * Copy `j` of entry `o` sits at position `TotalCount(contents[..o]) + j`, with
   * that position as its id, `o` as its order and the entry's class.
   */
  lemma {:induction false} CatalogAt(contents: seq<Entry>, o: nat, j: nat)
    requires o < |contents| && j < contents[o].count
    ensures TotalCount(contents[..o]) + j < |Catalog(contents)|
    ensures Catalog(contents)[TotalCount(contents[..o]) + j]
         == Card(TotalCount(contents[..o]) + j, o, contents[o].kind)
  {
    var init := contents[..|contents| - 1];
    CatalogSize(init);
    CatalogSize(contents);
    if o == |contents| - 1 {
      assert contents[..o] == init;
    } else {
      assert init[..o] == contents[..o];
      CatalogAt(init, o, j);
      assert TotalCount(contents[..o]) <= TotalCount(init) by {
        PrefixCount(contents, o);
      }
    }
  }

  lemma {:induction false} PrefixCount(contents: seq<Entry>, o: nat)
    requires o <= |contents|
    ensures TotalCount(contents[..o]) <= TotalCount(contents)
    decreases |contents|
  {
    if o < |contents| {
      var init := contents[..|contents| - 1];
      assert init[..o] == contents[..o];
      PrefixCount(init, o);
    } else {
      assert contents[..o] == contents;
    }
  }

  /** `s` read from its end: the order in which a stack pops its cards. */
  function Reversed<T>(s: seq<T>): (r: seq<T>)
    ensures |r| == |s|
    ensures forall k :: 0 <= k < |s| ==> r[k] == s[|s| - 1 - k]
  {
    seq(|s|, k requires 0 <= k < |s| => s[|s| - 1 - k])
  }

  lemma ReversedTwice<T>(s: seq<T>)
    ensures Reversed(Reversed(s)) == s
  {
  }

  lemma ReversedAppend<T>(a: seq<T>, b: seq<T>)
    ensures Reversed(a + b) == Reversed(b) + Reversed(a)
  {
  }

  /**
   * The `n` cards a stack pops first, in popping order; a non-positive `n`
   * pops nothing, as `range(n)` is then empty.
   */
  function Top<T>(s: seq<T>, n: int): (r: seq<T>)
    requires n <= |s|
    ensures |r| == if n <= 0 then 0 else n
    ensures forall k :: 0 <= k < |r| ==> r[k] == s[|s| - 1 - k]
  {
    if n <= 0 then [] else Reversed(s[|s| - n..])
  }

  /** The remaining stack after popping `n` cards. */
  function Below<T>(s: seq<T>, n: int): (r: seq<T>)
    requires n <= |s|
    ensures |r| == |s| - |Top(s, n)|
    ensures forall k :: 0 <= k < |r| ==> r[k] == s[k]
  {
    if n <= 0 then s else s[..|s| - n]
  }

  /** Popping one more card appends the card on top of what is left. */
  lemma TopStep<T>(s: seq<T>, x: nat)
    requires x < |s|
    ensures Top(s, x + 1) == Top(s, x) + [s[|s| - 1 - x]]
    ensures Below(s, x + 1) == Below(s, x)[..|Below(s, x)| - 1]
    ensures Below(s, x)[|Below(s, x)| - 1] == s[|s| - 1 - x]
  {
    var a, b := Top(s, x + 1), Top(s, x) + [s[|s| - 1 - x]];
    forall k | 0 <= k < |a|
      ensures a[k] == b[k]
    {
      if k < x {
        assert b[k] == Top(s, x)[k];
      }
    }
    assert a == b;
  }

  /** Popping never loses or invents a card: the popped cards and the rest make up the stack. */
  lemma TopBelow<T>(s: seq<T>, n: int)
    requires n <= |s|
    ensures Below(s, n) + Reversed(Top(s, n)) == s
    ensures |Top(s, n)| == if n <= 0 then 0 else n
  {
    if n > 0 {
      var hi := s[|s| - n..];
      calc {
        Below(s, n) + Reversed(Top(s, n));
        s[..|s| - n] + Reversed(Reversed(hi));
        { ReversedTwice(hi); }
        s[..|s| - n] + hi;
      }
      assert s[..|s| - n] + hi == s;
    }
  }

  /**
   * Index of the first card named `name`, the card `Hand.pick` and
   * `Position.pick` remove.
   */
  function FindName(cards: seq<Card>, name: string): (r: Option<nat>)
    ensures r.None? <==> forall k :: 0 <= k < |cards| ==> cards[k].Name() != name
    ensures r.Some? ==> r.value < |cards| && cards[r.value].Name() == name
                        && forall k :: 0 <= k < r.value ==> cards[k].Name() != name
  {
    if cards == [] then None
    else if cards[0].Name() == name then Some(0)
    else match FindName(cards[1..], name)
      case None => None
      case Some(i) => Some(i + 1)
  }

  /** The first card named `name` is the one `FindName` finds. */
  lemma FindNameAt(cards: seq<Card>, name: string, i: nat)
    requires i < |cards| && cards[i].Name() == name
    requires forall k :: 0 <= k < i ==> cards[k].Name() != name
    ensures FindName(cards, name) == Some(i)
  {
  }

  /** The cards left after removing the one at index `i`. */
  function RemoveAt<T>(s: seq<T>, i: nat): (r: seq<T>)
    requires i < |s|
    ensures |r| == |s| - 1
    ensures forall k :: 0 <= k < i ==> r[k] == s[k]
    ensures forall k :: i <= k < |r| ==> r[k] == s[k + 1]
  {
    s[..i] + s[i + 1..]
  }

  /** Removing one card keeps all the others, in their order. */
  lemma RemoveAtMultiset<T>(s: seq<T>, i: nat)
    requires i < |s|
    ensures multiset(RemoveAt(s, i)) + multiset{s[i]} == multiset(s)
    ensures |RemoveAt(s, i)| == |s| - 1
  {
    assert s == s[..i] + [s[i]] + s[i + 1..];
  }

  /**
   * The environment's standard contents table: nine donut classes, the
   * French cruller count depending on the number of players.
   */
  function StandardContents(players: int): (r: seq<Entry>)
    ensures |r| == 9 && forall o :: 0 <= o < 9 ==> r[o].kind.IsDonut()
    ensures r[8].kind == FrenchCruller
    ensures r[8].count == if players <= 1 then 0 else if players >= 5 then 4 else players - 1
  {
    var crullers := if players - 1 < 4 then players - 1 else 4;
    [Entry(ChocolateFrosted, 3), Entry(DonutHoles, 6), Entry(Eclair, 3), Entry(Glazed, 5),
     Entry(JellyFilled, 6), Entry(MapleBar, 2), Entry(Plain, 7), Entry(Powdered, 4),
     Entry(FrenchCruller, if crullers < 0 then 0 else crullers)]
  }

  /** A two-player game deals from 37 cards. */
  lemma StandardSize()
    ensures |Catalog(StandardContents(2))| == 37
  {
    var c := StandardContents(2);
    CatalogSize(c);
    assert c[..0] == [];
    TotalStep(c, 0); TotalStep(c, 1); TotalStep(c, 2); TotalStep(c, 3); TotalStep(c, 4);
    TotalStep(c, 5); TotalStep(c, 6); TotalStep(c, 7); TotalStep(c, 8);
    assert c[..9] == c;
  }

  /** One card of each standard class, listed in reverse so that the first class is drawn first. */
  function OneOfEach(): seq<Entry>
  {
    [Entry(FrenchCruller, 1), Entry(Powdered, 1), Entry(Plain, 1), Entry(MapleBar, 1),
     Entry(JellyFilled, 1), Entry(Glazed, 1), Entry(Eclair, 1), Entry(DonutHoles, 1),
     Entry(ChocolateFrosted, 1)]
  }

  /** Its stack holds 9 cards, card `o` being the one copy of entry `o`. */
  lemma OneOfEachCards()
    ensures |Catalog(OneOfEach())| == 9
    ensures forall o :: 0 <= o < 9 ==> Catalog(OneOfEach())[o] == Card(o, o, OneOfEach()[o].kind)
  {
    var e := OneOfEach();
    assert |e| == 9 && forall k :: 0 <= k < 9 ==> e[k].count == 1;
    UnitCatalog(e);
  }

  /** With one copy per entry, card `o` of the stack is the one copy of entry `o`. */
  lemma UnitCatalog(contents: seq<Entry>)
    requires forall k :: 0 <= k < |contents| ==> contents[k].count == 1
    ensures |Catalog(contents)| == |contents|
    ensures forall o :: 0 <= o < |contents| ==> Catalog(contents)[o] == Card(o, o, contents[o].kind)
  {
    var n := |contents|;
    UnitPrefix(contents, n);
    assert contents[..n] == contents;
    CatalogSize(contents);
    forall o | 0 <= o < n
      ensures Catalog(contents)[o] == Card(o, o, contents[o].kind)
    {
      UnitPrefix(contents, o);
      CatalogAt(contents, o, 0);
    }
  }

  /** Undisturbed, the first five cards drawn are ids 8, 7, 6, 5, 4: CF, DH, ECL, GZ, JF. */
  lemma OneOfEachDraws()
    ensures |Catalog(OneOfEach())| == 9
    ensures var top := Top(Catalog(OneOfEach()), 5);
      |top| == 5
      && (forall k :: 0 <= k < 5 ==> top[k].id == 8 - k && top[k].kind.IsDonut())
      && [top[0].kind.Symbol(), top[1].kind.Symbol(), top[2].kind.Symbol(), top[3].kind.Symbol(), top[4].kind.Symbol()]
         == ["CF", "DH", "ECL", "GZ", "JF"]
  {
    OneOfEachTop();
    var top := Top(Catalog(OneOfEach()), 5);
    var kinds := [ChocolateFrosted, DonutHoles, Eclair, Glazed, JellyFilled];
    forall k | 0 <= k < 5
      ensures top[k].kind == kinds[k] && kinds[k].IsDonut()
    {
      assert OneOfEach()[8 - k].kind == kinds[k];
    }
  }

  /** The top five cards of that stack are the copies of entries 8 down to 4. */
  lemma OneOfEachTop()
    ensures |Catalog(OneOfEach())| == 9
    ensures var top := Top(Catalog(OneOfEach()), 5);
      |top| == 5 && forall k :: 0 <= k < 5 ==> top[k] == Card(8 - k, 8 - k, OneOfEach()[8 - k].kind)
  {
    OneOfEachCards();
  }

  /** With one copy per entry, the first `o` entries hold `o` cards. */
  lemma {:induction false} UnitPrefix(contents: seq<Entry>, o: nat)
    requires o <= |contents|
    requires forall k :: 0 <= k < |contents| ==> contents[k].count == 1
    ensures TotalCount(contents[..o]) == o
  {
    if o > 0 {
      UnitPrefix(contents, o - 1);
      assert contents[..o][..o - 1] == contents[..o - 1];
    }
  }
}
