/** Worked examples of `scoreAndRank` on small concrete inputs. */
module Scenarios {
  import opened Wrappers
  import opened RVModel
  import opened Filter
  import opened Scoring
  import opened Ranking
  import opened Matcher

  /** A listing with the given scoring attributes and blank descriptive ones. */
  function Listing(id: int, rvType: string, lengthFt: real, sleeps: int, floorplanType: string,
                   keys: seq<string>): RV
  {
    RV(id, "", "", 2024, rvType, lengthFt, sleeps, 0, None, None, floorplanType, None, None, None,
       "APPROVED", seq(|keys|, j requires 0 <= j < |keys| => Feature(keys[j], keys[j])))
  }

  function ClassAPrefs(): Preferences
  {
    Preferences(["CLASS_A"], Some(35.0), Some(2), [], ["fireplace", "solar"], ["REAR_LIVING"], [])
  }

  function ClassAListing(): RV
  {
    Listing(1, "CLASS_A", 30.0, 4, "REAR_LIVING", ["solar", "fireplace"])
  }

  function ClassBListing(): RV
  {
    Listing(2, "CLASS_B", 20.0, 2, "NO_SLIDE", ["solar"])
  }

  /** Both ranked features present: 2 + 1 points, nothing missing. */
  lemma ClassAListingFeatures()
    ensures FeatureKeys(ClassAListing()) == ["solar", "fireplace"]
    ensures FeatureScore(ClassAPrefs().rankedFeatures, ["solar", "fireplace"]) == 3
    ensures Matched(ClassAPrefs().rankedFeatures, ["solar", "fireplace"]) == ["fireplace", "solar"]
    ensures Missing(ClassAPrefs().rankedFeatures, ["solar", "fireplace"]) == []
  {
    var ranked := ClassAPrefs().rankedFeatures;
    assert ranked[..1] == ["fireplace"] && ranked[1..] == ["solar"];
  }

  /** A class A with both ranked features and the preferred floorplan scores
      3 + 15 out of 3 + 15, i.e. 100. */
  lemma FullMatchScores100()
    ensures ScoreRV(ClassAListing(), ClassAPrefs()).score == 100
    ensures ScoreRV(ClassAListing(), ClassAPrefs()).matchDetails == MatchDetails(3, 15, ["fireplace", "solar"], [])
  {
    ClassAListingFeatures();
    assert FloorplanBonus(ClassAPrefs(), "REAR_LIVING") == 15;
    assert Normalise(18, 2) == 100;
  }

  /** Of a class A and a class B, only the class A is kept. */
  lemma WrongTypeExcluded()
    ensures Matches([ClassAListing(), ClassBListing()], ClassAPrefs()) == [ScoreRV(ClassAListing(), ClassAPrefs())]
  {
    var prefs := ClassAPrefs();
    assert !TypeAllowed(ClassBListing(), prefs);
    assert FeatureKeys(ClassAListing()) == ["solar", "fireplace"];
    assert Eligible(ClassAListing(), prefs);
    var rvs := [ClassAListing(), ClassBListing()];
    assert rvs[..1] == [ClassAListing()] && rvs[..1][..0] == [];
    assert Shortlist(rvs, prefs) == [ScoreRV(ClassAListing(), prefs)];
  }

  /** Without the fireplace: 1 + 15 out of 18 rounds to 89. */
  lemma PartialMatchScores89()
    ensures var a := Listing(1, "CLASS_A", 30.0, 4, "REAR_LIVING", ["solar"]);
      && ScoreRV(a, ClassAPrefs()).score == 89
      && ScoreRV(a, ClassAPrefs()).matchDetails == MatchDetails(1, 15, ["solar"], ["fireplace"])
  {
    var a := Listing(1, "CLASS_A", 30.0, 4, "REAR_LIVING", ["solar"]);
    var prefs := ClassAPrefs();
    assert FeatureKeys(a) == ["solar"];
    assert prefs.rankedFeatures[..1] == ["fireplace"];
    assert FeatureScore(prefs.rankedFeatures, FeatureKeys(a)) == 1 by {
      assert prefs.rankedFeatures[1..] == ["solar"];
    }
  }

  /** With nothing ranked and no preferred floorplan every score is 0 of 16. */
  lemma NothingRankedScoresZero(rv: RV, rvTypes: seq<string>, mustHave: seq<string>)
    ensures ScoreRV(rv, Preferences(rvTypes, None, None, mustHave, [], [], [])).score == 0
  {
  }

  /** A missing must-have feature removes the RV whatever else it offers. */
  lemma MissingMustHaveExcludes()
    ensures var a := Listing(1, "CLASS_A", 30.0, 4, "REAR_LIVING", ["fireplace"]);
      Matches([a], ClassAPrefs().(mustHaveFeatures := ["solar"])) == []
  {
    var a := Listing(1, "CLASS_A", 30.0, 4, "REAR_LIVING", ["fireplace"]);
    assert FeatureKeys(a) == ["fireplace"];
    assert "solar" in ["solar"] && "solar" !in FeatureKeys(a);
    assert !HasMustHaveFeatures(a, ClassAPrefs().(mustHaveFeatures := ["solar"]));
  }

  function TieFirst(): RV { Listing(1, "CLASS_A", 30.0, 4, "NO_SLIDE", ["solar"]) }
  function TieSecond(): RV { Listing(2, "CLASS_A", 32.0, 6, "NO_SLIDE", ["solar"]) }
  function TieBest(): RV { Listing(3, "CLASS_A", 34.0, 4, "REAR_LIVING", ["solar"]) }

  /** Two records of equal score behind a better one: the better one moves to
      the front, the tied pair keeps its order. */
  lemma RankTiedPair(sf: ScoredRV, ss: ScoredRV, sb: ScoredRV)
    requires sf.score == ss.score < sb.score
    ensures Rank([sf, ss, sb]) == [sb, sf, ss]
  {
    assert [sf, ss, sb][1..] == [ss, sb] && [ss, sb][1..] == [sb] && [sb][1..] == [];
    assert Rank([sb]) == [sb];
    assert Insert(ss, [sb]) == [sb, ss];
    assert [sb, ss][1..] == [ss];
    assert Insert(sf, [ss]) == [sf, ss];
    assert Insert(sf, [sb, ss]) == [sb, sf, ss];
  }

  /** Both RVs with only the second-ranked feature score 1 of 18, i.e. 6; the
      one with the preferred floorplan too scores 16 of 18, i.e. 89. */
  lemma TieScores()
    ensures ScoreRV(TieFirst(), ClassAPrefs()).score == 6
    ensures ScoreRV(TieSecond(), ClassAPrefs()).score == 6
    ensures ScoreRV(TieBest(), ClassAPrefs()).score == 89
  {
    var prefs := ClassAPrefs();
    assert FeatureKeys(TieFirst()) == FeatureKeys(TieSecond()) == FeatureKeys(TieBest()) == ["solar"];
    assert prefs.rankedFeatures[1..] == ["solar"];
    assert FeatureScore(prefs.rankedFeatures, ["solar"]) == 1;
  }

  /** All three RVs pass the filters. */
  lemma TieShortlist()
    ensures Shortlist([TieFirst(), TieSecond(), TieBest()], ClassAPrefs())
      == [ScoreRV(TieFirst(), ClassAPrefs()), ScoreRV(TieSecond(), ClassAPrefs()), ScoreRV(TieBest(), ClassAPrefs())]
  {
    var prefs := ClassAPrefs();
    var first, second, best := TieFirst(), TieSecond(), TieBest();
    var rvs := [first, second, best];
    assert Eligible(first, prefs) && Eligible(second, prefs) && Eligible(best, prefs);
    assert rvs[..2] == [first, second] && rvs[..2][..1] == [first] && [first][..0] == [];
    assert Shortlist([first], prefs) == [ScoreRV(first, prefs)];
  }

  /** Two RVs of equal score come out in input order, behind a better one. */
  lemma TiesKeepInputOrder()
    ensures Matches([TieFirst(), TieSecond(), TieBest()], ClassAPrefs())
      == [ScoreRV(TieBest(), ClassAPrefs()), ScoreRV(TieFirst(), ClassAPrefs()), ScoreRV(TieSecond(), ClassAPrefs())]
  {
    TieScores();
    TieShortlist();
    RankTiedPair(ScoreRV(TieFirst(), ClassAPrefs()), ScoreRV(TieSecond(), ClassAPrefs()), ScoreRV(TieBest(), ClassAPrefs()));
  }

  /** With 14 ranked features the denominator is 105 + 15 = 120; a raw score
      of 69 is exactly 57.5 percent, which rounds up to 58. */
  lemma ExactHalfRoundsUp()
    ensures MaxPossibleScore(14) == 120
    ensures Normalise(69, 14) == 58
  {
    assert WeightSum(14) == 105;
  }
}
