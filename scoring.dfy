/**
 * Scoring of the game environment: the end-of-game reward split
 * (`score_game`), the per-round tableau scoring (`score_round`) and the two
 * majority bonuses (`score_maki`, `score_puddings`).  The last three add to
 * each `Player.score` in place.  Bonuses are split with floor division, which
 * for the positive operands here is Dafny's `/`.
 */
module Scoring {
  import opened Wrappers
  import opened Cards
  import opened Ranking
  import opened Containers

  /** Plain integers as entries of which none is masked. */
  function Present(xs: seq<int>): (r: seq<Option<int>>)
    ensures |r| == |xs| && forall i :: 0 <= i < |xs| ==> r[i] == Some(xs[i])
  {
    seq(|xs|, i requires 0 <= i < |xs| => Some(xs[i]))
  }

  /** The same entries with those at the given indices masked out. */
  function Mask(xs: seq<Option<int>>, idx: seq<nat>): (r: seq<Option<int>>)
    ensures |r| == |xs|
    ensures forall i :: 0 <= i < |xs| ==> r[i] == if i in idx then None else xs[i]
  {
    seq(|xs|, i requires 0 <= i < |xs| => if i in idx then None else xs[i])
  }

  predicate Increasing(idx: seq<nat>)
  {
    forall a, b :: 0 <= a < b < |idx| ==> idx[a] < idx[b]
  }

  predicate DistinctPlayers(players: seq<Player>)
  {
    forall a, b :: 0 <= a < b < |players| ==> players[a] != players[b]
  }

  /** Every player's score. */
  function Scores(players: seq<Player>): (r: seq<int>)
    reads players
    ensures |r| == |players| && forall i :: 0 <= i < |players| ==> r[i] == players[i].score
  {
    seq(|players|, i reads players requires 0 <= i < |players| => players[i].score)
  }

  /** The cards in every player's tableau. */
  function Tableaux(players: seq<Player>): (r: seq<seq<Card>>)
    reads set i | 0 <= i < |players| :: players[i].position
    ensures |r| == |players| && forall i :: 0 <= i < |players| ==> r[i] == players[i].position.cards
  {
    seq(|players|, i reads set i | 0 <= i < |players| :: players[i].position
                     requires 0 <= i < |players| => players[i].position.cards)
  }

  // ---------------------------------------------------------------------------
  // score_game

  /** One of `n` equal parts of 1. */
  function Share(n: nat): (r: real)
    ensures 0.0 <= r <= 1.0
    ensures n > 0 ==> r > 0.0
  {
    if n == 0 then 0.0 else 1.0 / (n as real)
  }

  /** Winners share +1, losers share -1; a player at both extremes gets both. */
  function Reward(scores: seq<int>, i: nat): (r: real)
    requires i < |scores|
    ensures -1.0 <= r <= 1.0
  {
    var winners := Limits(Present(scores), Max);
    var losers := Limits(Present(scores), Min);
    (if i in winners then Share(|winners|) else 0.0) - (if i in losers then Share(|losers|) else 0.0)
  }

  function Rewards(scores: seq<int>): (r: seq<real>)
    ensures |r| == |scores|
    ensures forall i :: 0 <= i < |r| ==> -1.0 <= r[i] <= 1.0
  {
    seq(|scores|, i requires 0 <= i < |scores| => Reward(scores, i))
  }

  /** The players holding the extreme score, as the loop of `score_game` collects them. */
  function Extremes(scores: seq<int>, e: Extreme): seq<nat>
  {
    Matches(Present(scores), Best(Present(scores), e), |scores|)
  }

  lemma RewardAt(scores: seq<int>, i: nat)
    requires i < |scores|
    ensures Rewards(scores)[i] == Reward(scores, i)
  {
  }

  /** `score_game`: each player's reward from the final scores. */
  method ScoreGame(scores: seq<int>) returns (reward: seq<real>)
    requires |scores| > 0
    ensures reward == Rewards(scores)
  {
    var winners, losers := FindExtremes(scores);
    MatchesSpec(Present(scores), Best(Present(scores), Max), |scores|);
    MatchesSpec(Present(scores), Best(Present(scores), Min), |scores|);
    reward := seq(|scores|, _ => 0.0);
    reward := Credit(reward, winners, Share(|winners|));
    reward := Credit(reward, losers, -Share(|losers|));
    CreditedRewards(scores, reward);
  }

  /** The first loop of `score_game`: the players on the highest and on the lowest score, in seat order. */
  method FindExtremes(scores: seq<int>) returns (winners: seq<nat>, losers: seq<nat>)
    requires |scores| > 0
    ensures winners == Extremes(scores, Max) && losers == Extremes(scores, Min)
  {
    var p := Present(scores);
    assert p[0].Some?;
    var best := Best(p, Max).value;
    var worst := Best(p, Min).value;
    winners, losers := [], [];
    for i := 0 to |scores|
      invariant winners == Matches(p, Some(best), i)
      invariant losers == Matches(p, Some(worst), i)
    {
      if scores[i] == best {
        winners := winners + [i];
      }
      if scores[i] == worst {
        losers := losers + [i];
      }
    }
  }

  /** Crediting each winner its share and debiting each loser theirs gives `Rewards`. */
  lemma CreditedRewards(scores: seq<int>, reward: seq<real>)
    requires |reward| == |scores|
    requires forall j :: 0 <= j < |reward| ==>
      reward[j] == (0.0 + if j in Extremes(scores, Max) then Share(|Extremes(scores, Max)|) else 0.0)
                   + if j in Extremes(scores, Min) then -Share(|Extremes(scores, Min)|) else 0.0
    ensures reward == Rewards(scores)
  {
    assert Extremes(scores, Max) == Limits(Present(scores), Max);
    assert Extremes(scores, Min) == Limits(Present(scores), Min);
    forall j | 0 <= j < |scores|
      ensures reward[j] == Rewards(scores)[j]
    {
      RewardAt(scores, j);
    }
  }

  /** The crediting loops of `score_game`: each listed player's reward moves by `delta`. */
  method Credit(reward: seq<real>, idx: seq<nat>, delta: real) returns (r: seq<real>)
    requires forall a, b :: 0 <= a < b < |idx| ==> idx[a] < idx[b]
    requires forall k :: 0 <= k < |idx| ==> idx[k] < |reward|
    ensures |r| == |reward|
    ensures forall j :: 0 <= j < |reward| ==> r[j] == reward[j] + if j in idx then delta else 0.0
  {
    r := reward;
    for k := 0 to |idx|
      invariant |r| == |reward|
      invariant forall j :: 0 <= j < |reward| ==> r[j] == reward[j] + if j in idx[..k] then delta else 0.0
    {
      CreditStep(reward, r, idx, k, delta);
      r := r[idx[k] := r[idx[k]] + delta];
    }
    assert idx[..|idx|] == idx;
  }

  /** One pass of a crediting loop of `score_game`: the next listed player gets `delta`. */
  lemma CreditStep(before: seq<real>, reward: seq<real>, idx: seq<nat>, k: nat, delta: real)
    requires |reward| == |before| && k < |idx| && idx[k] < |reward|
    requires forall a, b :: 0 <= a < b < |idx| ==> idx[a] < idx[b]
    requires forall j :: 0 <= j < |reward| ==> reward[j] == before[j] + if j in idx[..k] then delta else 0.0
    ensures forall j :: 0 <= j < |reward| ==>
      reward[idx[k] := reward[idx[k]] + delta][j] == before[j] + if j in idx[..k + 1] then delta else 0.0
  {
    assert idx[..k + 1] == idx[..k] + [idx[k]];
    assert idx[k] !in idx[..k];
  }

  /** The sum of a sequence of rewards. */
  function Total(r: seq<real>): real
  {
    if r == [] then 0.0 else Total(r[..|r| - 1]) + r[|r| - 1]
  }

  /** `c` copies of `x` added together. */
  function Repeat(c: nat, x: real): real
  {
    if c == 0 then 0.0 else Repeat(c - 1, x) + x
  }

  /** The sum over the indices below `k` of `x` for those listed in `idx` and 0 for the rest. */
  function Part(idx: seq<nat>, k: nat, x: real): real
  {
    if k == 0 then 0.0 else Part(idx, k - 1, x) + if k - 1 in idx then x else 0.0
  }

  lemma {:induction false} RepeatTimes(c: nat, x: real)
    ensures Repeat(c, x) == (c as real) * x
  {
    if c > 0 {
      RepeatTimes(c - 1, x);
    }
  }

  /** `n` shares of one in `n` make one whole. */
  lemma RepeatShare(n: nat)
    requires n > 0
    ensures Repeat(n, Share(n)) == 1.0
  {
    RepeatTimes(n, Share(n));
  }

  /** Summing a share over the extreme players counts the indices matched so far. */
  lemma PartCountsMatches(p: seq<Option<int>>, e: Extreme, k: nat, x: real)
    requires k <= |p|
    ensures Part(Limits(p, e), k, x) == Repeat(|Matches(p, Best(p, e), k)|, x)
  {
    var t := Best(p, e);
    assert Limits(p, e) == Matches(p, t, |p|);
    MatchesSpec(p, t, |p|);
    PartCount(Limits(p, e), p, t, k, x);
  }

  lemma {:induction false} PartCount(all: seq<nat>, p: seq<Option<int>>, t: Option<int>, k: nat, x: real)
    requires k <= |p|
    requires forall i :: 0 <= i < |p| ==> (i in all <==> t.Some? && p[i] == t)
    ensures Part(all, k, x) == Repeat(|Matches(p, t, k)|, x)
  {
    if k > 0 {
      PartCount(all, p, t, k - 1, x);
      if t.Some? && p[k - 1] == t {
        assert Matches(p, t, k) == Matches(p, t, k - 1) + [k - 1];
      } else {
        assert Matches(p, t, k) == Matches(p, t, k - 1);
      }
    }
  }

  /** The rewards of the first `k` players: the winners' shares among them less the losers'. */
  lemma {:induction false} RewardsPrefix(scores: seq<int>, k: nat)
    requires k <= |scores|
    ensures Total(Rewards(scores)[..k])
         == Part(Limits(Present(scores), Max), k, Share(|Limits(Present(scores), Max)|))
          - Part(Limits(Present(scores), Min), k, Share(|Limits(Present(scores), Min)|))
  {
    var r := Rewards(scores);
    if k > 0 {
      RewardsPrefix(scores, k - 1);
      assert r[..k][..k - 1] == r[..k - 1];
      assert Total(r[..k]) == Total(r[..k - 1]) + r[k - 1];
      RewardAt(scores, k - 1);
    } else {
      assert r[..0] == [];
    }
  }

  /** The rewards of a game always sum to zero: one point is won and one is lost. */
  lemma RewardsSumToZero(scores: seq<int>)
    requires |scores| > 0
    ensures Total(Rewards(scores)) == 0.0
  {
    var p := Present(scores);
    RewardsPrefix(scores, |scores|);
    assert Rewards(scores)[..|scores|] == Rewards(scores);
    assert p[0].Some?;
    LimitsSpec(p, Max);
    LimitsSpec(p, Min);
    PartCountsMatches(p, Max, |p|, Share(|Limits(p, Max)|));
    PartCountsMatches(p, Min, |p|, Share(|Limits(p, Min)|));
    RepeatShare(|Limits(p, Max)|);
    RepeatShare(|Limits(p, Min)|);
  }

  /** In a fully tied game every player is both winner and loser, and every reward is 0. */
  lemma TiedGameRewardsZero(scores: seq<int>)
    requires |scores| > 0
    requires forall i :: 0 <= i < |scores| ==> scores[i] == scores[0]
    ensures forall i :: 0 <= i < |scores| ==> Rewards(scores)[i] == 0.0
  {
    AllEqualLimits(Present(scores));
  }

  /** With a single top score and a different single bottom score the rewards are +1 and -1. */
  lemma SoleWinnerSoleLoser(scores: seq<int>, w: nat, l: nat)
    requires w < |scores| && l < |scores| && w != l
    requires forall i :: 0 <= i < |scores| && i != w ==> scores[i] < scores[w]
    requires forall i :: 0 <= i < |scores| && i != l ==> scores[i] > scores[l]
    ensures Rewards(scores)[w] == 1.0 && Rewards(scores)[l] == -1.0
    ensures forall i :: 0 <= i < |scores| && i != w && i != l ==> Rewards(scores)[i] == 0.0
  {
    SoleExtreme(Present(scores), w, Max);
    SoleExtreme(Present(scores), l, Min);
    RewardWhenSole(scores, w, l);
  }

  /** The rewards once the winners are exactly `[w]` and the losers exactly `[l]`. */
  lemma RewardWhenSole(scores: seq<int>, w: nat, l: nat)
    requires w < |scores| && l < |scores| && w != l
    requires Limits(Present(scores), Max) == [w] && Limits(Present(scores), Min) == [l]
    ensures Rewards(scores)[w] == 1.0 && Rewards(scores)[l] == -1.0
    ensures forall i :: 0 <= i < |scores| && i != w && i != l ==> Rewards(scores)[i] == 0.0
  {
    assert Share(1) == 1.0;
    RewardAt(scores, w);
    RewardAt(scores, l);
    forall i | 0 <= i < |scores| && i != w && i != l
      ensures Rewards(scores)[i] == 0.0
    {
      RewardAt(scores, i);
    }
  }

  // ---------------------------------------------------------------------------
  // Majority bonuses

  /** Each listed player's score moves by `delta`; the loops of `score_puddings` and `score_maki`. */
  method Award(players: seq<Player>, idx: seq<nat>, delta: int)
    requires DistinctPlayers(players) && Increasing(idx)
    requires forall k :: 0 <= k < |idx| ==> idx[k] < |players|
    modifies players
    ensures forall j :: 0 <= j < |players| ==>
      players[j].score == old(players[j].score) + if j in idx then delta else 0
    ensures forall j :: 0 <= j < |players| ==> players[j].hand == old(players[j].hand)
  {
    for k := 0 to |idx|
      invariant forall j :: 0 <= j < |players| ==>
        players[j].score == old(players[j].score) + if j in idx[..k] then delta else 0
      invariant forall j :: 0 <= j < |players| ==> players[j].hand == old(players[j].hand)
    {
      assert idx[..k + 1] == idx[..k] + [idx[k]];
      assert idx[k] !in idx[..k];
      var p := players[idx[k]];
      p.score := p.score + delta;
    }
    assert idx[..|idx|] == idx;
  }

  /** How many cards of the (field-less) kind `k` a tableau holds. */
  function CountOf(cards: seq<Card>, k: Kind): (r: nat)
    ensures r <= |cards|
  {
    if cards == [] then 0
    else CountOf(cards[..|cards| - 1], k) + if cards[|cards| - 1].kind == k then 1 else 0
  }

  /** Every player's pudding count, as `score_puddings` collects them. */
  function Puddings(tableaux: seq<seq<Card>>): (r: seq<int>)
    ensures |r| == |tableaux|
    ensures forall i :: 0 <= i < |tableaux| ==> r[i] == CountOf(tableaux[i], Pudding)
  {
    seq(|tableaux|, i requires 0 <= i < |tableaux| => CountOf(tableaux[i], Pudding))
  }

  /**
   * The pudding bonus of player `i`: the `k` players with the most puddings
   * each gain `6 / k`, the `m` with the fewest each lose `6 / m`.
   */
  function PuddingAward(counts: seq<int>, i: nat): (r: int)
    requires i < |counts|
    ensures -6 <= r <= 6
  {
    var most := Limits(Present(counts), Max);
    var fewest := Limits(Present(counts), Min);
    (if i in most then ShareBound(|most|); 6 / |most| else 0)
    - (if i in fewest then ShareBound(|fewest|); 6 / |fewest| else 0)
  }

  /** `score_puddings`: every player's score moves by their pudding bonus. */
  method ScorePuddings(players: seq<Player>)
    requires |players| > 0 && DistinctPlayers(players)
    modifies players
    ensures forall i :: 0 <= i < |players| ==>
      players[i].score == old(players[i].score) + PuddingAward(old(Puddings(Tableaux(players))), i)
    ensures forall j :: 0 <= j < |players| ==> players[j].hand == old(players[j].hand)
  {
    var puddings := CountPuddings(players);
    AwardPuddings(players, puddings);
  }

  /** The rest of `score_puddings`: the leaders share 6 points, the trailers lose 6 between them. */
  method AwardPuddings(players: seq<Player>, puddings: seq<int>)
    requires |puddings| == |players| > 0 && DistinctPlayers(players)
    modifies players
    ensures forall i :: 0 <= i < |players| ==> players[i].score == old(players[i].score) + PuddingAward(puddings, i)
    ensures forall j :: 0 <= j < |players| ==> players[j].hand == old(players[j].hand)
  {
    LimitsNonEmpty(Present(puddings), Max, 0);
    LimitsNonEmpty(Present(puddings), Min, 0);
    var winners := GetLimits(Present(puddings), Max);
    Award(players, winners, 6 / |winners|);
    var losers := GetLimits(Present(puddings), Min);
    Award(players, losers, -(6 / |losers|));
  }

  /** The first loop of `score_puddings`: every player's pudding count, in seat order. */
  method CountPuddings(players: seq<Player>) returns (puddings: seq<int>)
    ensures puddings == Puddings(Tableaux(players))
  {
    ghost var tableaux := Tableaux(players);
    puddings := [];
    for i := 0 to |players|
      invariant puddings == Puddings(tableaux[..i])
    {
      puddings := puddings + [CountOf(players[i].position.cards, Pudding)];
    }
    assert tableaux[..|players|] == tableaux;
  }

  /** Equal pudding counts everywhere: every player is both first and last, and nobody's score moves. */
  lemma TiedPuddingsCancel(counts: seq<int>, i: nat)
    requires i < |counts|
    requires forall j :: 0 <= j < |counts| ==> counts[j] == counts[0]
    ensures PuddingAward(counts, i) == 0
  {
    AllEqualLimits(Present(counts));
  }

  /** A sole pudding leader gains 6, a sole trailer loses 6, everybody else keeps their score. */
  lemma SolePuddingLeader(counts: seq<int>, w: nat, l: nat)
    requires w < |counts| && l < |counts| && w != l
    requires forall j :: 0 <= j < |counts| && j != w ==> counts[j] < counts[w]
    requires forall j :: 0 <= j < |counts| && j != l ==> counts[j] > counts[l]
    ensures PuddingAward(counts, w) == 6 && PuddingAward(counts, l) == -6
    ensures forall j :: 0 <= j < |counts| && j != w && j != l ==> PuddingAward(counts, j) == 0
  {
    SoleScore(counts, w, Max);
    SoleScore(counts, l, Min);
    var most := Limits(Present(counts), Max);
    var fewest := Limits(Present(counts), Min);
    assert 6 / |most| == 6 && 6 / |fewest| == 6;
    forall j | 0 <= j < |counts|
      ensures PuddingAward(counts, j) == (if j == w then 6 else 0) - (if j == l then 6 else 0)
    {
      assert (j in most <==> j == w) && (j in fewest <==> j == l);
    }
  }

  /** A score strictly beyond every other one is the only extreme. */
  lemma SoleScore(scores: seq<int>, w: nat, e: Extreme)
    requires w < |scores|
    requires forall j :: 0 <= j < |scores| && j != w ==> scores[j] != scores[w] && AtLeast(e, scores[w], scores[j])
    ensures Limits(Present(scores), e) == [w]
  {
    SoleExtreme(Present(scores), w, e);
  }

  /** A share of 6 or 3 bonus points split `k` ways is at most the whole. */
  lemma ShareBound(k: nat)
    requires k > 0
    ensures 0 <= 6 / k <= 6 && 0 <= 3 / k <= 3
  {}

  /**
   * The maki bonus of player `i`: the `k` players with the most maki each
   * gain `6 / k`; only when there is a single leader do the `k2` best of the
   * others (the leader masked out) each gain `3 / k2`.
   */
  function MakiAward(maki: seq<int>, i: nat): (r: int)
    requires i < |maki|
    ensures 0 <= r <= 6
  {
    var first := Limits(Present(maki), Max);
    var second := Limits(Mask(Present(maki), first), Max);
    var lead := if i in first then ShareBound(|first|); 6 / |first| else 0;
    var runnerUp := if |first| == 1 && i in second then ShareBound(|second|); 3 / |second| else 0;
    assert lead == 0 || runnerUp == 0 by {
      if i in first {
        MaskedNotInLimits(Mask(Present(maki), first), i, Max);
      }
    }
    lead + runnerUp
  }

  /** `score_maki`: every player's score moves by their maki bonus. */
  method ScoreMaki(players: seq<Player>, maki: seq<int>)
    requires |players| > 0 && DistinctPlayers(players) && |maki| == |players|
    modifies players
    ensures forall i :: 0 <= i < |players| ==> players[i].score == old(players[i].score) + MakiAward(maki, i)
    ensures forall j :: 0 <= j < |players| ==> players[j].hand == old(players[j].hand)
  {
    var counts := Present(maki);
    LimitsNonEmpty(counts, Max, 0);
    var winners := GetLimits(counts, Max);
    counts := AwardAndMask(players, counts, winners, 6 / |winners|);
    var runnersUp: seq<nat> := [];
    if |winners| == 1 {
      // second place, found now that the leader is masked out
      runnersUp := GetLimits(counts, Max);
      if |runnersUp| > 0 {
        Award(players, runnersUp, 3 / |runnersUp|);
      }
    }
    MakiAwarded(maki, winners, runnersUp);
  }

  /** The first-place loop of `score_maki`: award each leader and mask their count. */
  method AwardAndMask(players: seq<Player>, counts: seq<Option<int>>, idx: seq<nat>, delta: int)
    returns (masked: seq<Option<int>>)
    requires DistinctPlayers(players) && Increasing(idx) && |counts| == |players|
    requires forall k :: 0 <= k < |idx| ==> idx[k] < |players|
    modifies players
    ensures masked == Mask(counts, idx)
    ensures forall j :: 0 <= j < |players| ==>
      players[j].score == old(players[j].score) + if j in idx then delta else 0
    ensures forall j :: 0 <= j < |players| ==> players[j].hand == old(players[j].hand)
  {
    masked := counts;
    for k := 0 to |idx|
      invariant masked == Mask(counts, idx[..k])
      invariant forall j :: 0 <= j < |players| ==>
        players[j].score == old(players[j].score) + if j in idx[..k] then delta else 0
      invariant forall j :: 0 <= j < |players| ==> players[j].hand == old(players[j].hand)
    {
      assert idx[..k + 1] == idx[..k] + [idx[k]];
      assert idx[k] !in idx[..k];
      MaskStep(counts, idx, k);
      var p := players[idx[k]];
      p.score := p.score + delta;
      masked := masked[idx[k] := None];
    }
    assert idx[..|idx|] == idx;
  }

  /** Masking one more listed index. */
  lemma MaskStep(xs: seq<Option<int>>, idx: seq<nat>, k: nat)
    requires k < |idx| && idx[k] < |xs|
    ensures Mask(xs, idx[..k + 1]) == Mask(xs, idx[..k])[idx[k] := None]
  {
    assert idx[..k + 1] == idx[..k] + [idx[k]];
  }

  /** The two awarding passes of `score_maki` add up to `MakiAward`. */
  lemma MakiAwarded(maki: seq<int>, winners: seq<nat>, runnersUp: seq<nat>)
    requires winners == Limits(Present(maki), Max)
    requires runnersUp == if |winners| == 1 then Limits(Mask(Present(maki), winners), Max) else []
    ensures forall j :: 0 <= j < |maki| ==>
      MakiAward(maki, j) == (if j in winners then 6 / |winners| else 0) + if j in runnersUp then 3 / |runnersUp| else 0
  {
  }

  /** Two distinct members make a list of at least two. */
  lemma TwoMembers(r: seq<nat>, a: nat, b: nat)
    requires a in r && b in r && a != b
    ensures |r| >= 2
  {
    var i :| 0 <= i < |r| && r[i] == a;
    var j :| 0 <= j < |r| && r[j] == b;
  }

  /** A tie for the most maki splits the 6 points and leaves nothing for anybody else. */
  lemma MakiTieNoSecond(maki: seq<int>, a: nat, b: nat)
    requires a < |maki| && b < |maki| && a != b && maki[a] == maki[b]
    requires forall j :: 0 <= j < |maki| ==> maki[j] <= maki[a]
    ensures MakiAward(maki, a) == MakiAward(maki, b) <= 3
    ensures forall i :: 0 <= i < |maki| && maki[i] < maki[a] ==> MakiAward(maki, i) == 0
  {
    var p := Present(maki);
    InLimits(p, a, Max);
    InLimits(p, b, Max);
    TwoMembers(Limits(p, Max), a, b);
    assert 6 / |Limits(p, Max)| <= 3;
    forall i | 0 <= i < |maki| && maki[i] < maki[a]
      ensures i !in Limits(p, Max)
    {
      NotInLimits(p, i, a, Max);
    }
  }

  /** Player `i` holds the most maki among all players but `w`. */
  predicate RunnerUp(maki: seq<int>, w: nat, i: nat)
    requires i < |maki|
  {
    i != w && forall j :: 0 <= j < |maki| && j != w ==> maki[j] <= maki[i]
  }

  /**
   * A sole maki leader gains 6; among the others, exactly those holding the
   * most of what remains share the second-place 3 points.
   */
  lemma MakiSoleLeader(maki: seq<int>, w: nat)
    requires w < |maki|
    requires forall j :: 0 <= j < |maki| && j != w ==> maki[j] < maki[w]
    ensures MakiAward(maki, w) == 6
    ensures forall i :: 0 <= i < |maki| && i != w && !RunnerUp(maki, w, i) ==> MakiAward(maki, i) == 0
    ensures forall i :: 0 <= i < |maki| && RunnerUp(maki, w, i) ==>
      var second := Limits(Mask(Present(maki), [w]), Max);
      |second| > 0 && MakiAward(maki, i) == 3 / |second|
  {
    SoleScore(maki, w, Max);
    var rest := Mask(Present(maki), [w]);
    MaskedNotInLimits(rest, w, Max);
    forall i | 0 <= i < |maki| && i != w
      ensures i in Limits(rest, Max) <==> RunnerUp(maki, w, i)
    {
      if RunnerUp(maki, w, i) {
        InLimits(rest, i, Max);
      } else {
        var j :| 0 <= j < |maki| && j != w && maki[j] > maki[i];
        NotInLimits(rest, i, j, Max);
      }
    }
  }
  /** A sole leader and a sole runner-up take 6 and 3, everybody else nothing. */
  lemma MakiSoleRunnerUp(maki: seq<int>, w: nat, r: nat)
    requires w < |maki| && r < |maki| && w != r
    requires forall j :: 0 <= j < |maki| && j != w ==> maki[j] < maki[w]
    requires forall j :: 0 <= j < |maki| && j != w && j != r ==> maki[j] < maki[r]
    ensures MakiAward(maki, w) == 6 && MakiAward(maki, r) == 3
    ensures forall i :: 0 <= i < |maki| && i != w && i != r ==> MakiAward(maki, i) == 0
  {
    MakiSoleLeader(maki, w);
    var rest := Mask(Present(maki), [w]);
    forall i | 0 <= i < |rest| && i != r && rest[i].Some?
      ensures rest[i].value != rest[r].value && rest[r].value >= rest[i].value
    {
      assert i != w;
    }
    SoleExtreme(rest, r, Max);
    assert 3 / |Limits(rest, Max)| == 3;
    assert RunnerUp(maki, w, r);
    forall i | 0 <= i < |maki| && i != w && i != r
      ensures !RunnerUp(maki, w, i)
    {
      assert maki[i] < maki[r];
    }
  }

  // ---------------------------------------------------------------------------
  // score_round

  /** Points from nigiri: each one's value, tripled when it was played on wasabi. */
  function NigiriPoints(cards: seq<Card>): int
  {
    if cards == [] then 0
    else
      var k := cards[|cards| - 1].kind;
      NigiriPoints(cards[..|cards| - 1]) +
      if !k.Nigiri? then 0 else if k.playedOnWasabi then 3 * k.value else k.value
  }

  /** The total value of the maki cards in a tableau. */
  function MakiPoints(cards: seq<Card>): int
  {
    if cards == [] then 0
    else
      var k := cards[|cards| - 1].kind;
      MakiPoints(cards[..|cards| - 1]) + if k.Maki? then k.value else 0
  }

  /** A tableau without a nigiri card scores no nigiri points. */
  lemma {:induction false} NoNigiriNoPoints(cards: seq<Card>)
    requires forall k :: 0 <= k < |cards| ==> !cards[k].kind.Nigiri?
    ensures NigiriPoints(cards) == 0
  {
    if cards != [] {
      NoNigiriNoPoints(cards[..|cards| - 1]);
    }
  }

  /** A tableau without a maki card has no maki. */
  lemma {:induction false} NoMakiNoPoints(cards: seq<Card>)
    requires forall k :: 0 <= k < |cards| ==> !cards[k].kind.Maki?
    ensures MakiPoints(cards) == 0
  {
    if cards != [] {
      NoMakiNoPoints(cards[..|cards| - 1]);
    }
  }

  /** `d` dumplings score the triangular number of `d`, capped at 15. */
  function DumplingPoints(d: nat): (r: int)
    ensures 0 <= r <= 15
  {
    var t := d * (d + 1) / 2;
    if t < 15 then t else 15
  }

  /** What a tableau scores in `score_round` on its own, before the maki bonus. */
  function RoundPoints(cards: seq<Card>): (r: int)
    ensures r >= NigiriPoints(cards)
    ensures CountOf(cards, Tempura) < 2 && CountOf(cards, Sashimi) < 3 && CountOf(cards, Dumpling) == 0
            ==> r == NigiriPoints(cards)
  {
    NigiriPoints(cards)
    + (CountOf(cards, Tempura) / 2) * 5
    + (CountOf(cards, Sashimi) / 3) * 10
    + DumplingPoints(CountOf(cards, Dumpling))
  }

  /** Every player's maki total. */
  function MakiTotals(tableaux: seq<seq<Card>>): (r: seq<int>)
    ensures |r| == |tableaux|
    ensures forall i :: 0 <= i < |tableaux| ==> r[i] == MakiPoints(tableaux[i])
  {
    seq(|tableaux|, i requires 0 <= i < |tableaux| => MakiPoints(tableaux[i]))
  }

  /** The per-player body of `score_round`: score one tableau and return its maki total. */
  method ScoreTableau(p: Player) returns (maki: int)
    modifies p
    ensures p.score == old(p.score) + RoundPoints(p.position.cards)
    ensures maki == MakiPoints(p.position.cards)
    ensures p.hand == old(p.hand)
  {
    var cards := p.position.cards;
    var tempura, sashimi, dumpling := 0, 0, 0;
    maki := 0;
    for j := 0 to |cards|
      invariant tempura == CountOf(cards[..j], Tempura)
      invariant sashimi == CountOf(cards[..j], Sashimi)
      invariant dumpling == CountOf(cards[..j], Dumpling)
      invariant maki == MakiPoints(cards[..j])
      invariant p.score == old(p.score) + NigiriPoints(cards[..j])
      invariant p.hand == old(p.hand)
    {
      TallyStep(cards, j);
      var k := cards[j].kind;
      if k == Tempura {
        tempura := tempura + 1;
      } else if k == Sashimi {
        sashimi := sashimi + 1;
      } else if k == Dumpling {
        dumpling := dumpling + 1;
      } else if k.Maki? {
        maki := maki + k.value;
      } else if k.Nigiri? {
        if k.playedOnWasabi {
          p.score := p.score + 3 * k.value;
        } else {
          p.score := p.score + k.value;
        }
      }
    }
    assert cards[..|cards|] == cards;
    p.score := p.score + (tempura / 2) * 5;
    p.score := p.score + (sashimi / 3) * 10;
    var triangle := dumpling * (dumpling + 1) / 2;
    p.score := p.score + if 15 < triangle then 15 else triangle;
  }

  /** Reading one more card of a tableau adds that card's share to every tally. */
  lemma TallyStep(cards: seq<Card>, j: nat)
    requires j < |cards|
    ensures CountOf(cards[..j + 1], Tempura) == CountOf(cards[..j], Tempura) + if cards[j].kind == Tempura then 1 else 0
    ensures CountOf(cards[..j + 1], Sashimi) == CountOf(cards[..j], Sashimi) + if cards[j].kind == Sashimi then 1 else 0
    ensures CountOf(cards[..j + 1], Dumpling) == CountOf(cards[..j], Dumpling) + if cards[j].kind == Dumpling then 1 else 0
    ensures MakiPoints(cards[..j + 1]) == MakiPoints(cards[..j]) + if cards[j].kind.Maki? then cards[j].kind.value else 0
    ensures NigiriPoints(cards[..j + 1]) == NigiriPoints(cards[..j]) +
      if !cards[j].kind.Nigiri? then 0 else if cards[j].kind.playedOnWasabi then 3 * cards[j].kind.value else cards[j].kind.value
  {
    assert cards[..j + 1][..j] == cards[..j];
  }

  /** `score_round`: every player scores their tableau, then the maki bonus is applied. */
  method ScoreRound(players: seq<Player>)
    requires |players| > 0 && DistinctPlayers(players)
    modifies players
    ensures forall i :: 0 <= i < |players| ==>
      players[i].score == old(players[i].score) + RoundPoints(old(Tableaux(players))[i])
                          + MakiAward(old(MakiTotals(Tableaux(players))), i)
    ensures forall j :: 0 <= j < |players| ==> players[j].hand == old(players[j].hand)
  {
    ghost var tableaux := Tableaux(players);
    var maki: seq<int> := seq(|players|, _ => 0);
    for i := 0 to |players|
      invariant |maki| == |players|
      invariant forall j :: 0 <= j < i ==>
        maki[j] == MakiPoints(tableaux[j]) && players[j].score == old(players[j].score) + RoundPoints(tableaux[j])
      invariant forall j :: i <= j < |players| ==> players[j].score == old(players[j].score)
      invariant forall j :: 0 <= j < |players| ==> players[j].hand == old(players[j].hand)
    {
      var points := ScoreTableau(players[i]);
      maki := maki[i := points];
    }
    assert maki == MakiTotals(tableaux);
    ScoreMaki(players, maki);
  }

  /** The dumpling scale: 0, 1, 3, 6, 10, 15, and 15 from five dumplings on. */
  lemma DumplingScale(d: nat)
    ensures DumplingPoints(0) == 0 && DumplingPoints(1) == 1 && DumplingPoints(2) == 3
    ensures DumplingPoints(3) == 6 && DumplingPoints(4) == 10
    ensures d >= 5 ==> DumplingPoints(d) == 15
  {
    if d >= 5 {
      assert d * (d + 1) >= 5 * (d + 1) >= 30;
    }
  }

  lemma {:induction false} CountAppend(a: seq<Card>, b: seq<Card>, k: Kind)
    ensures CountOf(a + b, k) == CountOf(a, k) + CountOf(b, k)
  {
    if b != [] {
      CountAppend(a, b[..|b| - 1], k);
      assert (a + b)[..|a + b| - 1] == a + b[..|b| - 1];
    } else {
      assert a + b == a;
    }
  }

  lemma {:induction false} NigiriAppend(a: seq<Card>, b: seq<Card>)
    ensures NigiriPoints(a + b) == NigiriPoints(a) + NigiriPoints(b)
    ensures MakiPoints(a + b) == MakiPoints(a) + MakiPoints(b)
  {
    if b != [] {
      NigiriAppend(a, b[..|b| - 1]);
      assert (a + b)[..|a + b| - 1] == a + b[..|b| - 1];
    } else {
      assert a + b == a;
    }
  }

  /** A tableau scores the same, and has the same maki total, whichever order its cards were played in. */
  lemma TableauPermutation(a: seq<Card>, b: seq<Card>)
    requires multiset(a) == multiset(b)
    ensures RoundPoints(a) == RoundPoints(b) && MakiPoints(a) == MakiPoints(b)
  {
    PermutationTallies(a, b);
  }

  /** Every tally `score_round` keeps over a tableau depends only on its multiset of cards. */
  lemma {:induction false} PermutationTallies(a: seq<Card>, b: seq<Card>)
    requires multiset(a) == multiset(b)
    ensures NigiriPoints(a) == NigiriPoints(b) && MakiPoints(a) == MakiPoints(b)
    ensures forall k :: CountOf(a, k) == CountOf(b, k)
    decreases |a|
  {
    if a == [] {
      assert |b| == |multiset(b)| == 0;
    } else {
      var x, a' := a[|a| - 1], a[..|a| - 1];
      var i := Matching(a, b);
      var lo, hi := b[..i], b[i + 1..];
      PermutationTallies(a', lo + hi);
      assert a' + [x] + [] == a && a' + [] == a';
      MiddleTallies(a', x, []);
      assert lo + [x] + hi == b;
      MiddleTallies(lo, x, hi);
    }
  }

  /** The last card of `a` sits somewhere in its permutation `b`; without it the two are still permutations. */
  lemma Matching(a: seq<Card>, b: seq<Card>) returns (i: nat)
    requires multiset(a) == multiset(b) && a != []
    ensures i < |b| && b[i] == a[|a| - 1]
    ensures multiset(a[..|a| - 1]) == multiset(b[..i] + b[i + 1..])
  {
    var x, a' := a[|a| - 1], a[..|a| - 1];
    assert a == a' + [x];
    assert x in multiset(b);
    i :| 0 <= i < |b| && b[i] == x;
    assert multiset(a') == multiset(a) - multiset{x};
    assert b == b[..i] + [x] + b[i + 1..];
    assert multiset(b[..i] + b[i + 1..]) == multiset(b) - multiset{x};
  }

  /** Taking one card out of the middle of a tableau takes exactly its share out of each tally. */
  lemma MiddleTallies(lo: seq<Card>, x: Card, hi: seq<Card>)
    ensures NigiriPoints(lo + [x] + hi) == NigiriPoints(lo + hi) + NigiriPoints([x])
    ensures MakiPoints(lo + [x] + hi) == MakiPoints(lo + hi) + MakiPoints([x])
    ensures forall k :: CountOf(lo + [x] + hi, k) == CountOf(lo + hi, k) + CountOf([x], k)
  {
    NigiriAppend(lo, hi);
    NigiriAppend(lo + [x], hi);
    NigiriAppend(lo, [x]);
    forall k
      ensures CountOf(lo + [x] + hi, k) == CountOf(lo + hi, k) + CountOf([x], k)
    {
      CountAppend(lo, hi, k);
      CountAppend(lo + [x], hi, k);
      CountAppend(lo, [x], k);
    }
  }

  /** Donut cards carry no points of the round scoring: an all-donut tableau scores nothing. */
  lemma {:induction false} DonutsScoreNothing(cards: seq<Card>)
    requires forall i :: 0 <= i < |cards| ==> cards[i].kind.IsDonut()
    ensures RoundPoints(cards) == 0 && MakiPoints(cards) == 0
    ensures CountOf(cards, Pudding) == 0
  {
    if cards != [] {
      DonutsScoreNothing(cards[..|cards| - 1]);
    }
  }
}
