/** The records `scoreAndRank` reads and produces (server/src/lib/matcher.ts). */
module RVModel {
  import opened Wrappers

  /** A catalog feature, e.g. Feature("solar", "Solar Panels"). */
  datatype Feature = Feature(key: string, labelText: string)

  /** One RV listing as fetched with its features. Everything but the type,
      length, sleeps, floorplan and features is carried through untouched. */
  datatype RV = RV(
    id: int,
    brand: string,
    model: string,
    year: int,
    rvType: string,
    lengthFt: real,
    sleeps: int,
    slides: int,
    weightLbs: Option<int>,
    msrp: Option<int>,
    floorplanType: string,
    floorplanUrl: Option<string>,
    description: Option<string>,
    imageUrl: Option<string>,
    status: string,
    features: seq<Feature>)

  /** The buyer's preferences. An absent `mustHaveFloorplans` is the empty list. */
  datatype Preferences = Preferences(
    rvTypes: seq<string>,
    maxLengthFt: Option<real>,
    minSleeps: Option<int>,
    mustHaveFeatures: seq<string>,
    rankedFeatures: seq<string>,
    preferredFloorplans: seq<string>,
    mustHaveFloorplans: seq<string>)

  datatype MatchDetails = MatchDetails(
    featureScore: int,
    floorplanBonus: int,
    matchedFeatures: seq<string>,
    missingFeatures: seq<string>)

  /** `{...rv, score, matchDetails}`: the source record is kept whole in `rv`. */
  datatype ScoredRV = ScoredRV(rv: RV, score: int, matchDetails: MatchDetails)

  /** `rv.features.map((f) => f.feature.key)` */
  function FeatureKeys(rv: RV): (keys: seq<string>)
    ensures |keys| == |rv.features|
    ensures forall j :: 0 <= j < |keys| ==> keys[j] == rv.features[j].key
  {
    seq(|rv.features|, j requires 0 <= j < |rv.features| => rv.features[j].key)
  }
}
