/**
 * `get_limits` of the game environment: the indices of the entries equal to
 * the largest (or smallest) value, where masked entries (`None`, which numpy
 * turns into NaN) are ignored and never returned.
 */
module Ranking {
  import opened Wrappers

  /** `get_limits` looks for the maximum on `'max'` and for the minimum on anything else. */
  datatype Extreme = Max | Min

  /** `a` is at least as far towards the extreme `e` as `b`. */
  predicate AtLeast(e: Extreme, a: int, b: int)
  {
    if e == Max then a >= b else a <= b
  }

  /** Entry `i` is present and no present entry is beyond it. */
  predicate IsExtreme(counts: seq<Option<int>>, i: int, e: Extreme)
    requires 0 <= i < |counts|
  {
    counts[i].Some? &&
    forall j :: 0 <= j < |counts| && counts[j].Some? ==> AtLeast(e, counts[i].value, counts[j].value)
  }

  /** `nanmax` / `nanmin`: the extreme present value, nothing when every entry is masked. */
  function Best(counts: seq<Option<int>>, e: Extreme): (r: Option<int>)
    ensures r.None? <==> forall i :: 0 <= i < |counts| ==> counts[i].None?
    ensures r.Some? ==> exists i :: 0 <= i < |counts| && counts[i] == r
    ensures r.Some? ==> forall i :: 0 <= i < |counts| && counts[i].Some? ==> AtLeast(e, r.value, counts[i].value)
  {
    if counts == [] then None
    else
      var rest := Best(counts[..|counts| - 1], e);
      var last := counts[|counts| - 1];
      if last.None? then rest
      else if rest.None? || AtLeast(e, last.value, rest.value) then last
      else rest
  }

  /** The indices below `n` whose entry equals `target`, ascending; a NaN target matches nothing. */
  function Matches(counts: seq<Option<int>>, target: Option<int>, n: nat): (r: seq<nat>)
    requires n <= |counts|
    ensures |r| <= n
    ensures forall k :: 0 <= k < |r| ==> r[k] < n && counts[r[k]] == target
  {
    if n == 0 then []
    else Matches(counts, target, n - 1) + (if target.Some? && counts[n - 1] == target then [n - 1] else [])
  }

  /** `Matches` lists exactly the matching indices below `n`, each once and in ascending order. */
  lemma {:induction false} MatchesSpec(counts: seq<Option<int>>, target: Option<int>, n: nat)
    requires n <= |counts|
    ensures forall i :: i in Matches(counts, target, n) <==> 0 <= i < n && target.Some? && counts[i] == target
    ensures forall a, b :: 0 <= a < b < |Matches(counts, target, n)| ==>
      Matches(counts, target, n)[a] < Matches(counts, target, n)[b]
    ensures forall k :: 0 <= k < |Matches(counts, target, n)| ==> Matches(counts, target, n)[k] < n
  {
    if n > 0 {
      MatchesSpec(counts, target, n - 1);
    }
  }

  /** The result of `get_limits`: present entries at the extreme, in ascending order. */
  function Limits(counts: seq<Option<int>>, e: Extreme): (r: seq<nat>)
    ensures forall a, b :: 0 <= a < b < |r| ==> r[a] < r[b]
    ensures forall k :: 0 <= k < |r| ==> r[k] < |counts|
  {
    MatchesSpec(counts, Best(counts, e), |counts|);
    Matches(counts, Best(counts, e), |counts|)
  }

  /**
   * `get_limits` returns exactly the present entries at the extreme, never a
   * masked one, and at least one of them unless every entry is masked.
   */
  lemma LimitsSpec(counts: seq<Option<int>>, e: Extreme)
    ensures forall i :: i in Limits(counts, e) <==> 0 <= i < |counts| && IsExtreme(counts, i, e)
    ensures (exists i :: 0 <= i < |counts| && counts[i].Some?) <==> |Limits(counts, e)| > 0
  {
    ExtremesMatchBest(counts, e);
    MatchesSpec(counts, Best(counts, e), |counts|);
  }

  /** An entry at the extreme is returned. */
  lemma InLimits(counts: seq<Option<int>>, i: nat, e: Extreme)
    requires i < |counts| && IsExtreme(counts, i, e)
    ensures i in Limits(counts, e)
  {
    LimitsSpec(counts, e);
  }

  /** An entry that some present entry `j` goes beyond is not returned. */
  lemma NotInLimits(counts: seq<Option<int>>, i: nat, j: nat, e: Extreme)
    requires i < |counts| && j < |counts| && counts[i].Some? && counts[j].Some?
    requires !AtLeast(e, counts[i].value, counts[j].value)
    ensures i !in Limits(counts, e)
  {
    LimitsSpec(counts, e);
  }

  /** A masked entry is never returned. */
  lemma MaskedNotInLimits(counts: seq<Option<int>>, i: nat, e: Extreme)
    requires i < |counts| && counts[i].None?
    ensures i !in Limits(counts, e)
  {
    LimitsSpec(counts, e);
  }

  /** A present entry `i` makes the result non-empty. */
  lemma LimitsNonEmpty(counts: seq<Option<int>>, e: Extreme, i: nat)
    requires i < |counts| && counts[i].Some?
    ensures |Limits(counts, e)| > 0
  {
    LimitsSpec(counts, e);
  }

  /** The entries equal to the best value are exactly the extreme ones. */
  lemma ExtremesMatchBest(counts: seq<Option<int>>, e: Extreme)
    ensures forall i :: 0 <= i < |counts| ==> (IsExtreme(counts, i, e) <==> Best(counts, e).Some? && counts[i] == Best(counts, e))
    ensures (exists i :: 0 <= i < |counts| && counts[i].Some?) <==> |Matches(counts, Best(counts, e), |counts|)| > 0
  {
    var best := Best(counts, e);
    forall i | 0 <= i < |counts| && IsExtreme(counts, i, e)
      ensures counts[i] == best
    {
      var k :| 0 <= k < |counts| && counts[k] == best;
      assert AtLeast(e, counts[i].value, best.value) && AtLeast(e, best.value, counts[i].value);
    }
    var r := Matches(counts, best, |counts|);
    assert (exists i :: 0 <= i < |counts| && counts[i].Some?) <==> |r| > 0 by {
      MatchesSpec(counts, best, |counts|);
      if exists i :: 0 <= i < |counts| && counts[i].Some? {
        var k :| 0 <= k < |counts| && counts[k] == best;
        assert k in r;
      }
      if |r| > 0 {
        assert r[0] in r;
      }
    }
  }

  /** When one present entry is strictly beyond all others, it is the only one returned. */
  lemma SoleExtreme(counts: seq<Option<int>>, w: nat, e: Extreme)
    requires w < |counts| && counts[w].Some?
    requires forall i :: 0 <= i < |counts| && i != w && counts[i].Some? ==>
               counts[i].value != counts[w].value && AtLeast(e, counts[w].value, counts[i].value)
    ensures Limits(counts, e) == [w]
  {
    var best := Best(counts, e);
    var i :| 0 <= i < |counts| && counts[i] == best;
    assert best == counts[w];
    OnlyMatch(counts, best, w, |counts|);
  }

  /** When exactly entry `w` holds the target, it is the only index matched. */
  lemma {:induction false} OnlyMatch(counts: seq<Option<int>>, target: Option<int>, w: nat, n: nat)
    requires n <= |counts| && w < |counts| && target.Some?
    requires forall i :: 0 <= i < |counts| ==> (counts[i] == target <==> i == w)
    ensures Matches(counts, target, n) == if w < n then [w] else []
  {
    if n > 0 {
      OnlyMatch(counts, target, w, n - 1);
      if n - 1 == w {
        assert counts[n - 1] == target;
        assert Matches(counts, target, n) == [] + [n - 1];
      } else {
        assert counts[n - 1] != target;
        assert Matches(counts, target, n) == Matches(counts, target, n - 1) + [];
      }
    }
  }

  /** When every present entry holds the same value, both extremes are all present entries. */
  lemma AllEqualLimits(counts: seq<Option<int>>)
    requires forall i, j :: 0 <= i < |counts| && 0 <= j < |counts| && counts[i].Some? && counts[j].Some?
               ==> counts[i] == counts[j]
    ensures Limits(counts, Max) == Limits(counts, Min)
  {
    var hi := Best(counts, Max);
    var lo := Best(counts, Min);
    if hi.Some? {
      var i :| 0 <= i < |counts| && counts[i] == hi;
      var j :| 0 <= j < |counts| && counts[j] == lo;
      assert hi == lo;
    }
  }

  /** The loop of `get_limits`, proved to compute `Limits`. */
  method GetLimits(counts: seq<Option<int>>, e: Extreme) returns (winners: seq<nat>)
    requires |counts| > 0
    ensures winners == Limits(counts, e)
  {
    var typeCounts := Best(counts, e);
    winners := [];
    for i := 0 to |counts|
      invariant winners == Matches(counts, typeCounts, i)
    {
      if typeCounts.Some? && counts[i] == typeCounts {
        winners := winners + [i];
      }
    }
  }
}
