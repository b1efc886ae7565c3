/** The five hard constraints of `scoreAndRank`; a candidate failing any is skipped. */
module Filter {
  import opened Wrappers
  import opened RVModel

  /** The type must be listed, unless no type is listed. */
  predicate TypeAllowed(rv: RV, prefs: Preferences) {
    !(|prefs.rvTypes| > 0 && rv.rvType !in prefs.rvTypes)
  }

  /** The length must not exceed the maximum, when one is set. */
  predicate LengthAllowed(rv: RV, prefs: Preferences) {
    !(prefs.maxLengthFt.Some? && rv.lengthFt > prefs.maxLengthFt.value)
  }

  /** The RV must sleep at least the minimum, when one is set. */
  predicate SleepsAllowed(rv: RV, prefs: Preferences) {
    !(prefs.minSleeps.Some? && rv.sleeps < prefs.minSleeps.value)
  }

  /** No must-have key may be missing from the RV's feature keys. */
  predicate HasMustHaveFeatures(rv: RV, prefs: Preferences) {
    !(exists key | key in prefs.mustHaveFeatures :: key !in FeatureKeys(rv))
  }

  /** The floorplan must be listed, unless no must-have floorplan is listed. */
  predicate FloorplanAllowed(rv: RV, prefs: Preferences) {
    !(|prefs.mustHaveFloorplans| > 0 && rv.floorplanType !in prefs.mustHaveFloorplans)
  }

  predicate Eligible(rv: RV, prefs: Preferences) {
    && TypeAllowed(rv, prefs)
    && LengthAllowed(rv, prefs)
    && SleepsAllowed(rv, prefs)
    && HasMustHaveFeatures(rv, prefs)
    && FloorplanAllowed(rv, prefs)
  }

  /** What eligibility means, stated constraint by constraint without the
      negated `continue` conditions. */
  lemma EligibleMeans(rv: RV, prefs: Preferences)
    ensures Eligible(rv, prefs) <==>
      && (prefs.rvTypes != [] ==> rv.rvType in prefs.rvTypes)
      && (forall m :: prefs.maxLengthFt == Some(m) ==> rv.lengthFt <= m)
      && (forall m :: prefs.minSleeps == Some(m) ==> rv.sleeps >= m)
      && (forall key :: key in prefs.mustHaveFeatures ==>
            exists j :: 0 <= j < |rv.features| && rv.features[j].key == key)
      && (prefs.mustHaveFloorplans != [] ==> rv.floorplanType in prefs.mustHaveFloorplans)
  {
  }

  /** Requiring one more feature can only exclude more RVs. */
  lemma MoreMustHaveIsStricter(rv: RV, prefs: Preferences, key: string)
    ensures Eligible(rv, prefs.(mustHaveFeatures := prefs.mustHaveFeatures + [key]))
        <==> Eligible(rv, prefs) && key in FeatureKeys(rv)
  {
  }
}
