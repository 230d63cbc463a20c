/**
 * `convert_action` of the game environment: an action index names either one
 * card type to play, or (above the first `cardTypes` indices) a pair of card
 * types played together with chopsticks.
 */
module Actions {
  import opened Wrappers

  /** Whether chopsticks are used, the first card type and the optional second one. */
  datatype Action = Action(chopsticks: bool, first: int, second: Option<int>)

  /** The index given to the pair `(first, second)` when legal actions are laid out. */
  function Encode(first: int, second: int, cardTypes: int): (r: int)
    ensures 0 <= first && 0 <= second < cardTypes ==>
      cardTypes + first * cardTypes <= r < cardTypes + (first + 1) * cardTypes
  {
    cardTypes + first * cardTypes + second
  }

  /**
   * `convert_action`: indices below `cardTypes` play that one type; every other
   * index is the encoding of a pair, which this decodes.
   */
  function ConvertAction(action: int, cardTypes: int): (r: Action)
    requires cardTypes > 0
    ensures !r.chopsticks <==> action < cardTypes
    ensures !r.chopsticks ==> r == Action(false, action, None)
    ensures r.chopsticks ==>
      r.second.Some? && 0 <= r.first && 0 <= r.second.value < cardTypes
      && Encode(r.first, r.second.value, cardTypes) == action
  {
    if action < cardTypes then Action(false, action, None)
    else
      var rest := action - cardTypes;
      Action(true, rest / cardTypes, Some(rest % cardTypes))
  }

  /** Decoding the index of a pair gives that pair back. */
  lemma DecodeEncode(first: int, second: int, cardTypes: int)
    requires cardTypes > 0 && 0 <= first && 0 <= second < cardTypes
    ensures ConvertAction(Encode(first, second, cardTypes), cardTypes) == Action(true, first, Some(second))
  {
    var rest := first * cardTypes + second;
    assert rest >= 0 by {
      assert first * cardTypes >= 0;
    }
    DivModUnique(rest, cardTypes, first, second);
  }

  /** Quotient and remainder are the only such pair. */
  lemma DivModUnique(n: int, d: int, q: int, r: int)
    requires d > 0 && 0 <= r < d && n == q * d + r
    ensures n / d == q && n % d == r
  {
    var q' := n / d;
    var r' := n % d;
    assert n == q' * d + r';
    if q' > q {
      MulStep(q', q, d);
      assert false;
    } else if q' < q {
      MulStep(q, q', d);
      assert false;
    }
  }

  /** A larger multiplier gives a product larger by at least one more `d`. */
  lemma MulStep(a: int, b: int, d: int)
    requires a > b && d > 0
    ensures a * d >= b * d + d
  {
    PositiveMultiple(a - b, d);
    assert a * d - b * d == (a - b) * d;
  }

  lemma {:induction false} PositiveMultiple(k: int, d: int)
    requires k >= 1 && d > 0
    ensures k * d >= d
    decreases k
  {
    if k > 1 {
      PositiveMultiple(k - 1, d);
      assert k * d == (k - 1) * d + d;
    }
  }
}
