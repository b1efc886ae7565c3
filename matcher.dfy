/** `scoreAndRank` (server/src/lib/matcher.ts): filter, score, then sort. */
module Matcher {
  import opened RVModel
  import opened Filter
  import opened Scoring
  import opened Ranking

  /** The `results` array before sorting: every eligible RV scored, in input order. */
  function Shortlist(rvs: seq<RV>, prefs: Preferences): seq<ScoredRV>
  {
    if rvs == [] then []
    else
      var last := rvs[|rvs| - 1];
      Shortlist(rvs[..|rvs| - 1], prefs) + (if Eligible(last, prefs) then [ScoreRV(last, prefs)] else [])
  }

  lemma ShortlistStep(rvs: seq<RV>, i: nat, prefs: Preferences)
    requires i < |rvs|
    ensures Shortlist(rvs[..i + 1], prefs)
      == Shortlist(rvs[..i], prefs) + (if Eligible(rvs[i], prefs) then [ScoreRV(rvs[i], prefs)] else [])
  {
    assert rvs[..i + 1][..i] == rvs[..i];
  }

  /** What `scoreAndRank` returns. */
  function Matches(rvs: seq<RV>, prefs: Preferences): seq<ScoredRV>
  {
    Rank(Shortlist(rvs, prefs))
  }

  /** Steps 2 and 3 of the loop body, for an RV that passed the filters. */
  method ScoreOne(rv: RV, prefs: Preferences) returns (scored: ScoredRV)
    ensures scored == ScoreRV(rv, prefs)
  {
    // Step 2: feature score
    var featureScore, matchedFeatures, missingFeatures := ScoreFeatures(prefs.rankedFeatures, FeatureKeys(rv));

    // Step 3: floorplan bonus, then normalise to 0..100
    var floorplanBonus := FloorplanBonus(prefs, rv.floorplanType);
    var score := Normalise(featureScore + floorplanBonus, |prefs.rankedFeatures|);

    scored := ScoredRV(rv, score, MatchDetails(featureScore, floorplanBonus, matchedFeatures, missingFeatures));
  }

  method ScoreAndRank(rvs: seq<RV>, prefs: Preferences) returns (ranked: seq<ScoredRV>)
    ensures ranked == Matches(rvs, prefs)
  {
    var results: seq<ScoredRV> := [];
    for i := 0 to |rvs|
      invariant results == Shortlist(rvs[..i], prefs)
    {
      var rv := rvs[i];
      ShortlistStep(rvs, i, prefs);

      // Step 1: hard filters
      if !TypeAllowed(rv, prefs) { continue; }
      if !LengthAllowed(rv, prefs) { continue; }
      if !SleepsAllowed(rv, prefs) { continue; }
      if !HasMustHaveFeatures(rv, prefs) { continue; }
      if !FloorplanAllowed(rv, prefs) { continue; }

      var scored := ScoreOne(rv, prefs);
      results := results + [scored];
    }
    assert rvs[..|rvs|] == rvs;

    // Step 4: stable sort by descending score
    ranked := RankCopy(results);
  }

  /** Every record in the shortlist is an eligible input RV, scored. */
  lemma {:induction false} ShortlistSound(rvs: seq<RV>, prefs: Preferences)
    ensures forall r :: r in Shortlist(rvs, prefs) ==>
      r.rv in rvs && Eligible(r.rv, prefs) && r == ScoreRV(r.rv, prefs)
  {
    if rvs != [] {
      var init := rvs[..|rvs| - 1];
      ShortlistSound(init, prefs);
      assert rvs == init + [rvs[|rvs| - 1]];
    }
  }

  /** Every eligible input RV is in the shortlist, scored. */
  lemma {:induction false} ShortlistComplete(rvs: seq<RV>, prefs: Preferences, rv: RV)
    requires rv in rvs && Eligible(rv, prefs)
    ensures ScoreRV(rv, prefs) in Shortlist(rvs, prefs)
  {
    var init, last := rvs[..|rvs| - 1], rvs[|rvs| - 1];
    assert rvs == init + [last];
    if rv != last {
      ShortlistComplete(init, prefs, rv);
    }
  }

  /** Filter soundness: every returned record comes from an input RV that meets
      all five hard constraints, and is that RV scored. */
  lemma FilterSound(rvs: seq<RV>, prefs: Preferences)
    ensures forall r :: r in Matches(rvs, prefs) ==>
      && r.rv in rvs
      && TypeAllowed(r.rv, prefs) && LengthAllowed(r.rv, prefs) && SleepsAllowed(r.rv, prefs)
      && HasMustHaveFeatures(r.rv, prefs) && FloorplanAllowed(r.rv, prefs)
      && r == ScoreRV(r.rv, prefs)
  {
    ShortlistSound(rvs, prefs);
    RankPermutes(Shortlist(rvs, prefs));
    forall r | r in Matches(rvs, prefs) ensures r in Shortlist(rvs, prefs) {
      assert r in multiset(Matches(rvs, prefs));
    }
  }

  /** Filter completeness: every input RV meeting all constraints is returned,
      and the result is a reordering of the shortlist. */
  lemma FilterComplete(rvs: seq<RV>, prefs: Preferences)
    ensures forall rv :: rv in rvs && Eligible(rv, prefs) ==> ScoreRV(rv, prefs) in Matches(rvs, prefs)
    ensures multiset(Matches(rvs, prefs)) == multiset(Shortlist(rvs, prefs))
  {
    RankPermutes(Shortlist(rvs, prefs));
    forall rv | rv in rvs && Eligible(rv, prefs) ensures ScoreRV(rv, prefs) in Matches(rvs, prefs) {
      ShortlistComplete(rvs, prefs, rv);
      assert ScoreRV(rv, prefs) in multiset(Shortlist(rvs, prefs));
    }
  }

  /** The result is ordered by non-increasing score, and RVs of equal score
      keep their input order. */
  lemma RankedStably(rvs: seq<RV>, prefs: Preferences)
    ensures SortedByScore(Matches(rvs, prefs))
    ensures forall v :: WithScore(Matches(rvs, prefs), v) == WithScore(Shortlist(rvs, prefs), v)
  {
    RankSorted(Shortlist(rvs, prefs));
    RankStable(Shortlist(rvs, prefs));
  }

  /** Sorting the result again yields the same sequence. */
  lemma RankingIdempotent(rvs: seq<RV>, prefs: Preferences)
    ensures Rank(Matches(rvs, prefs)) == Matches(rvs, prefs)
  {
    RankIdempotent(Shortlist(rvs, prefs));
  }

  /** Every returned score is a whole percentage between 0 and 100. */
  lemma ScoresInRange(rvs: seq<RV>, prefs: Preferences)
    ensures forall r :: r in Matches(rvs, prefs) ==> 0 <= r.score <= 100
  {
    FilterSound(rvs, prefs);
    forall r | r in Matches(rvs, prefs) ensures 0 <= r.score <= 100 {
      ScoreRVInRange(r.rv, prefs);
    }
  }

  lemma {:induction false} StricterShortlist(rvs: seq<RV>, prefs: Preferences, key: string)
    ensures multiset(Shortlist(rvs, prefs.(mustHaveFeatures := prefs.mustHaveFeatures + [key])))
         <= multiset(Shortlist(rvs, prefs))
  {
    if rvs != [] {
      var stricter := prefs.(mustHaveFeatures := prefs.mustHaveFeatures + [key]);
      var last := rvs[|rvs| - 1];
      StricterShortlist(rvs[..|rvs| - 1], prefs, key);
      MoreMustHaveIsStricter(last, prefs, key);
      assert ScoreRV(last, stricter) == ScoreRV(last, prefs);
    }
  }

  /** Requiring one more feature never adds a result: the new result is a
      sub-multiset of the old one, and no longer. */
  lemma MoreMustHaveNeverEnlarges(rvs: seq<RV>, prefs: Preferences, key: string)
    ensures var stricter := prefs.(mustHaveFeatures := prefs.mustHaveFeatures + [key]);
      && multiset(Matches(rvs, stricter)) <= multiset(Matches(rvs, prefs))
      && |Matches(rvs, stricter)| <= |Matches(rvs, prefs)|
  {
    var stricter := prefs.(mustHaveFeatures := prefs.mustHaveFeatures + [key]);
    StricterShortlist(rvs, prefs, key);
    RankPermutes(Shortlist(rvs, prefs));
    RankPermutes(Shortlist(rvs, stricter));
    var fewer, more := multiset(Matches(rvs, stricter)), multiset(Matches(rvs, prefs));
    assert more == fewer + (more - fewer);
    assert |more| == |fewer| + |more - fewer|;
  }
}
