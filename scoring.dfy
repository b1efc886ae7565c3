/** Scoring of one eligible RV: weighted ranked features, the floorplan bonus,
    and normalisation to 0..100 (server/src/lib/matcher.ts, steps 2 and 3). */
module Scoring {
  import opened RVModel

  /** The flat bonus for a preferred floorplan, and the fixed share of the
      denominator reserved for it. */
  const FloorplanBonusPoints := 15

  // ---------------------------------------------------------------------------
  // Feature score, matched and missing features

  /** Reference definition: the first of `ranked` is worth |ranked| points, the
      next one less, down to 1 for the last; a key earns its points when the RV
      has it. Since the tail of a list of length n has length n - 1, index i is
      worth n - i. */
  function FeatureScore(ranked: seq<string>, keys: seq<string>): int
  {
    if ranked == [] then 0
    else (if ranked[0] in keys then |ranked| else 0) + FeatureScore(ranked[1..], keys)
  }

  /** The ranked keys the RV has, in ranked order. */
  function Matched(ranked: seq<string>, keys: seq<string>): (m: seq<string>)
    ensures |m| <= |ranked|
    ensures forall k :: k in m <==> k in ranked && k in keys
  {
    if ranked == [] then []
    else
      var last := ranked[|ranked| - 1];
      Matched(ranked[..|ranked| - 1], keys) + (if last in keys then [last] else [])
  }

  /** The ranked keys the RV lacks, in ranked order. */
  function Missing(ranked: seq<string>, keys: seq<string>): (m: seq<string>)
    ensures |m| <= |ranked|
    ensures forall k :: k in m <==> k in ranked && k !in keys
  {
    if ranked == [] then []
    else
      var last := ranked[|ranked| - 1];
      Missing(ranked[..|ranked| - 1], keys) + (if last in keys then [] else [last])
  }

  /** The `forEach` over the ranked features: accumulate `n - index` for every
      key the RV has, pushing it to the matched list, else to the missing list. */
  method ScoreFeatures(ranked: seq<string>, keys: seq<string>)
    returns (featureScore: int, matched: seq<string>, missing: seq<string>)
    ensures featureScore == FeatureScore(ranked, keys)
    ensures matched == Matched(ranked, keys)
    ensures missing == Missing(ranked, keys)
  {
    featureScore, matched, missing := 0, [], [];
    var maxRankCount := |ranked|;
    for index := 0 to |ranked|
      invariant featureScore + FeatureScore(ranked[index..], keys) == FeatureScore(ranked, keys)
      invariant matched == Matched(ranked[..index], keys)
      invariant missing == Missing(ranked[..index], keys)
    {
      var key := ranked[index];
      assert ranked[index..][1..] == ranked[index + 1..];
      assert ranked[..index + 1][..index] == ranked[..index];
      if key in keys {
        featureScore := featureScore + (maxRankCount - index);
        matched := matched + [key];
      } else {
        missing := missing + [key];
      }
    }
    assert ranked[..|ranked|] == ranked;
  }

  // ---------------------------------------------------------------------------
  // The maximum feature score

  /** `[n, n-1, ..., 1].reduce((a, b) => a + b, 0)` */
  function WeightSum(n: nat): nat
  {
    if n == 0 then 0 else n + WeightSum(n - 1)
  }

  /** The weights add up to the triangular number n(n+1)/2. */
  lemma {:induction false} WeightSumClosedForm(n: nat)
    ensures 2 * WeightSum(n) == n * (n + 1)
  {
    if n > 0 {
      WeightSumClosedForm(n - 1);
    }
  }

  /** `maxPossibleFeatureScore`: the sum of all weights, or 1 when nothing is ranked. */
  function MaxPossibleFeatureScore(n: nat): (m: nat)
    ensures m >= 1
    ensures n > 0 ==> 2 * m == n * (n + 1)
    ensures n == 0 ==> m == 1
  {
    WeightSumClosedForm(n);
    if n > 0 then WeightSum(n) else 1
  }

  /** `maxPossibleScore`: the 15 bonus points are always in the denominator. */
  function MaxPossibleScore(n: nat): (m: nat)
    ensures m >= 16
    ensures n > 0 ==> 2 * (m - FloorplanBonusPoints) == n * (n + 1)
    ensures n == 0 ==> m == 16
  {
    MaxPossibleFeatureScore(n) + FloorplanBonusPoints
  }

  /** The feature score lies between 0 and the sum of all weights. */
  lemma {:induction false} FeatureScoreBounds(ranked: seq<string>, keys: seq<string>)
    ensures 0 <= FeatureScore(ranked, keys) <= WeightSum(|ranked|)
  {
    if ranked != [] {
      FeatureScoreBounds(ranked[1..], keys);
    }
  }

  /** The feature score is the maximum exactly when every ranked key is present. */
  lemma {:induction false} FeatureScoreFull(ranked: seq<string>, keys: seq<string>)
    ensures FeatureScore(ranked, keys) == WeightSum(|ranked|)
        <==> forall k :: k in ranked ==> k in keys
  {
    if ranked != [] {
      FeatureScoreFull(ranked[1..], keys);
      FeatureScoreBounds(ranked[1..], keys);
      assert ranked == [ranked[0]] + ranked[1..];
    }
  }

  /** The feature score is zero exactly when no ranked key is present. */
  lemma {:induction false} FeatureScoreZero(ranked: seq<string>, keys: seq<string>)
    ensures FeatureScore(ranked, keys) == 0 <==> forall k :: k in ranked ==> k !in keys
  {
    if ranked != [] {
      FeatureScoreZero(ranked[1..], keys);
      FeatureScoreBounds(ranked[1..], keys);
      assert ranked == [ranked[0]] + ranked[1..];
    }
  }

  /** Full and empty matches, stated on the matched and missing lists. */
  lemma FeatureScoreExtremes(ranked: seq<string>, keys: seq<string>)
    ensures FeatureScore(ranked, keys) == WeightSum(|ranked|) <==> Missing(ranked, keys) == []
    ensures FeatureScore(ranked, keys) == 0 <==> Matched(ranked, keys) == []
  {
    FeatureScoreFull(ranked, keys);
    FeatureScoreZero(ranked, keys);
    var missing := Missing(ranked, keys);
    var matched := Matched(ranked, keys);
    if missing != [] { assert missing[0] in missing; }
    if matched != [] { assert matched[0] in matched; }
  }

  /** `a` occurs in `b` in order, possibly with gaps. */
  ghost predicate IsSubsequence(a: seq<string>, b: seq<string>)
  {
    || a == []
    || (&& b != []
        && (|| (a[|a| - 1] == b[|b| - 1] && IsSubsequence(a[..|a| - 1], b[..|b| - 1]))
            || IsSubsequence(a, b[..|b| - 1])))
  }

  /** Every ranked key lands in exactly one of the matched and missing lists. */
  lemma {:induction false} MatchedMissingLengths(ranked: seq<string>, keys: seq<string>)
    ensures |Matched(ranked, keys)| + |Missing(ranked, keys)| == |ranked|
  {
    if ranked != [] {
      MatchedMissingLengths(ranked[..|ranked| - 1], keys);
    }
  }

  /** The matched list keeps the ranked order. */
  lemma {:induction false} MatchedInRankedOrder(ranked: seq<string>, keys: seq<string>)
    ensures IsSubsequence(Matched(ranked, keys), ranked)
  {
    if ranked != [] {
      var init, last := ranked[..|ranked| - 1], ranked[|ranked| - 1];
      MatchedInRankedOrder(init, keys);
      var matched := Matched(init, keys);
      if last in keys {
        assert Matched(ranked, keys) == matched + [last];
        assert (matched + [last])[..|matched|] == matched;
      } else {
        assert Matched(ranked, keys) == matched;
      }
    }
  }

  /** The missing list keeps the ranked order. */
  lemma {:induction false} MissingInRankedOrder(ranked: seq<string>, keys: seq<string>)
    ensures IsSubsequence(Missing(ranked, keys), ranked)
  {
    if ranked != [] {
      var init, last := ranked[..|ranked| - 1], ranked[|ranked| - 1];
      MissingInRankedOrder(init, keys);
      var missing := Missing(init, keys);
      if last !in keys {
        assert Missing(ranked, keys) == missing + [last];
        assert (missing + [last])[..|missing|] == missing;
      } else {
        assert Missing(ranked, keys) == missing;
      }
    }
  }

  // ---------------------------------------------------------------------------
  // Floorplan bonus and normalisation

  /** `floorplanBonus`: 15 when the floorplan is preferred, else 0. */
  function FloorplanBonus(prefs: Preferences, floorplanType: string): (b: int)
    ensures b == FloorplanBonusPoints <==> floorplanType in prefs.preferredFloorplans
    ensures b == 0 <==> floorplanType !in prefs.preferredFloorplans
  {
    if |prefs.preferredFloorplans| > 0 && floorplanType in prefs.preferredFloorplans
    then FloorplanBonusPoints else 0
  }

  /** `Math.round(num / den)` on exact rationals: the nearest integer, halves
      rounded up. */
  function RoundHalfUp(num: int, den: int): (r: int)
    requires den > 0
    ensures den * (2 * r - 1) <= 2 * num < den * (2 * r + 1)
  {
    var q := (2 * num + den) / (2 * den);
    assert 2 * den * q <= 2 * num + den < 2 * den * q + 2 * den;
    q
  }

  /** `Math.min(100, maxPossibleScore > 0 ? Math.round(rawScore / maxPossibleScore * 100) : 50)` */
  function Normalise(rawScore: int, rankCount: nat): int
  {
    var maxPossibleScore := MaxPossibleScore(rankCount);
    var score := if maxPossibleScore > 0 then RoundHalfUp(100 * rawScore, maxPossibleScore) else 50;
    if score < 100 then score else 100
  }

  lemma MulLeftCancel(m: int, a: int, b: int)
    requires m > 0 && m * a < m * b
    ensures a < b
  {
  }

  /** A raw score between 0 and the maximum normalises to the rounded
      percentage itself: the fallback 50 and the clamp to 100 never apply. */
  lemma NormaliseInRange(rawScore: int, rankCount: nat)
    requires 0 <= rawScore <= MaxPossibleScore(rankCount)
    ensures Normalise(rawScore, rankCount) == RoundHalfUp(100 * rawScore, MaxPossibleScore(rankCount))
    ensures 0 <= Normalise(rawScore, rankCount) <= 100
  {
    var m := MaxPossibleScore(rankCount);
    var r := RoundHalfUp(100 * rawScore, m);
    MulLeftCancel(m, 2 * r - 1, 201);
    MulLeftCancel(m, -1, 2 * r + 1);
  }

  /** A higher raw score never gives a lower percentage. */
  lemma NormaliseMonotone(raw1: int, raw2: int, rankCount: nat)
    requires raw1 <= raw2
    ensures Normalise(raw1, rankCount) <= Normalise(raw2, rankCount)
  {
    var m := MaxPossibleScore(rankCount);
    var r1 := RoundHalfUp(100 * raw1, m);
    var r2 := RoundHalfUp(100 * raw2, m);
    MulLeftCancel(m, 2 * r1 - 1, 2 * r2 + 1);
  }

  // ---------------------------------------------------------------------------
  // One RV

  /** The scored record `scoreAndRank` pushes for an eligible RV. */
  function ScoreRV(rv: RV, prefs: Preferences): ScoredRV
  {
    var keys := FeatureKeys(rv);
    var featureScore := FeatureScore(prefs.rankedFeatures, keys);
    var floorplanBonus := FloorplanBonus(prefs, rv.floorplanType);
    ScoredRV(rv, Normalise(featureScore + floorplanBonus, |prefs.rankedFeatures|),
      MatchDetails(featureScore, floorplanBonus,
        Matched(prefs.rankedFeatures, keys), Missing(prefs.rankedFeatures, keys)))
  }

  /** Every score is a whole percentage in 0..100, the rounded share of the
      raw points in the maximum; the record keeps its source RV. */
  lemma ScoreRVInRange(rv: RV, prefs: Preferences)
    ensures var s := ScoreRV(rv, prefs);
      && s.rv == rv
      && 0 <= s.score <= 100
      && s.score == RoundHalfUp(100 * (s.matchDetails.featureScore + s.matchDetails.floorplanBonus),
                                MaxPossibleScore(|prefs.rankedFeatures|))
  {
    var n := |prefs.rankedFeatures|;
    FeatureScoreBounds(prefs.rankedFeatures, FeatureKeys(rv));
    if n > 0 {
      assert WeightSum(n) == MaxPossibleFeatureScore(n);
    }
    NormaliseInRange(FeatureScore(prefs.rankedFeatures, FeatureKeys(rv))
      + FloorplanBonus(prefs, rv.floorplanType), n);
  }

  /** A full match on a preferred floorplan scores exactly 100. */
  lemma PerfectMatchScores100(rv: RV, prefs: Preferences)
    requires |prefs.rankedFeatures| > 0
    requires forall k :: k in prefs.rankedFeatures ==> k in FeatureKeys(rv)
    requires rv.floorplanType in prefs.preferredFloorplans
    ensures ScoreRV(rv, prefs).score == 100
  {
    var n := |prefs.rankedFeatures|;
    FeatureScoreFull(prefs.rankedFeatures, FeatureKeys(rv));
    var m := MaxPossibleScore(n);
    assert FeatureScore(prefs.rankedFeatures, FeatureKeys(rv)) + FloorplanBonus(prefs, rv.floorplanType) == m;
    NormaliseInRange(m, n);
    var r := RoundHalfUp(100 * m, m);
    MulLeftCancel(m, 2 * r - 1, 201);
    MulLeftCancel(m, 199, 2 * r + 1);
  }
}
