# RV matchmaker: verified model of `scoreAndRank`

This project models the matching algorithm of the RV matchmaker, `scoreAndRank`
in `server/src/lib/matcher.ts`, in Dafny. The algorithm takes the catalog's RV
listings and a buyer's preferences and runs four steps:

1. **Filter.** It drops every RV that breaks one of five hard constraints: type,
   maximum length, minimum sleeping capacity, must-have features, and must-have
   floorplans.
2. **Score.** Each ranked feature the RV has earns `n - i` points, where `i` is
   its position and `n` the number of ranked features. A preferred floorplan
   earns a flat 15 points.
3. **Normalise.** It divides by the maximum `n(n+1)/2 + 15` (16 when nothing is
   ranked), rounds half up to a percentage, and clamps at 100.
4. **Rank.** It sorts stably by descending score.

Modules, one per stage:

- `Wrappers` (`wrappers.dfy`): `Option`, for the `number | null` preference fields.
- `RVModel` (`rv_model.dfy`): the records `RV`, `Preferences`, `MatchDetails` and `ScoredRV`.
- `Filter` (`filter.dfy`): the five hard constraints, one predicate each.
- `Scoring` (`scoring.dfy`):
  - the `forEach` over the ranked features, as a method with a loop (`ScoreFeatures`);
  - its reference functions `FeatureScore`, `Matched` and `Missing`;
  - the triangular maximum, the floorplan bonus, half-up rounding and the clamp.
- `Ranking` (`ranking.dfy`):
  - a reference stable sort `Rank` (an insertion sort);
  - the in-place array sort `SortByScore`, proved equal to `Rank`. The proof rests on a
    uniqueness lemma: two sequences sorted by score whose records of each score
    appear in the same order are equal.
- `Matcher` (`matcher.dfy`):
  - the main loop `ScoreAndRank`, with the five `continue` filters, proved to return
    `Matches(rvs, prefs) = Rank(Shortlist(rvs, prefs))`;
  - the lemmas on filter soundness and completeness, ordering, stability, score bounds
    and monotonicity.
- `Scenarios` (`scenarios.dfy`): worked examples on small concrete inputs.

`ScoredRV` keeps the whole source record in its `rv` field. This stands for the
`...rv` spread. So "every non-score field is the source RV's" becomes `r.rv in rvs`.

## Model

| member | source | states |
|---|---|---|
| `Filter.EligibleMeans` | server/src/lib/matcher.ts:52-56 | An RV passes the filters iff: its type is listed or no type is listed; its length is at most the maximum when one is set; it sleeps at least the minimum when one is set; it has every must-have feature key; and its floorplan is listed or no must-have floorplan is listed. |
| `Filter.MoreMustHaveIsStricter` | server/src/lib/matcher.ts:55 | Adding a must-have key keeps exactly the RVs that were eligible and have that key. |
| `Scoring.Matched` | server/src/lib/matcher.ts:64-72 | A key is in `matchedFeatures` iff it is ranked and the RV has it. The list is never longer than the ranked list. |
| `Scoring.Missing` | server/src/lib/matcher.ts:64-72 | A key is in `missingFeatures` iff it is ranked and the RV lacks it. The list is never longer than the ranked list. |
| `Scoring.ScoreFeatures` | server/src/lib/matcher.ts:59-72 | The `forEach` loop that adds `maxRankCount - index` per matched key gives the reference feature score: index i is worth n - i when the RV has the key. It also gives exactly the reference matched and missing lists. |
| `Scoring.WeightSumClosedForm` | server/src/lib/matcher.ts:80 | The reduce over `[n, n-1, ..., 1]` equals the triangular number: twice the sum is n(n+1). |
| `Scoring.MaxPossibleFeatureScore` | server/src/lib/matcher.ts:79-81 | The maximum feature score is at least 1. It is n(n+1)/2 when n > 0, and 1 when nothing is ranked. |
| `Scoring.MaxPossibleScore` | server/src/lib/matcher.ts:82 | The denominator is n(n+1)/2 + 15 for n > 0 and 16 for n = 0. It is always at least 16. |
| `Scoring.FeatureScoreBounds` | server/src/lib/matcher.ts:59-72 | The feature score lies between 0 and the sum of all weights. |
| `Scoring.FeatureScoreFull` | server/src/lib/matcher.ts:64-72 | The feature score equals the sum of all weights iff the RV has every ranked key. |
| `Scoring.FeatureScoreZero` | server/src/lib/matcher.ts:64-72 | The feature score is 0 iff the RV has none of the ranked keys. |
| `Scoring.FeatureScoreExtremes` | server/src/lib/matcher.ts:59-72 | A full feature score means the missing list is empty. A zero feature score means the matched list is empty. Both hold in both directions. |
| `Scoring.MatchedMissingLengths` | server/src/lib/matcher.ts:64-72 | The matched and missing lengths add up to the number of ranked features. |
| `Scoring.MatchedInRankedOrder` | server/src/lib/matcher.ts:64-68 | `matchedFeatures` is a subsequence of `rankedFeatures`: it keeps the ranked order. |
| `Scoring.MissingInRankedOrder` | server/src/lib/matcher.ts:69-71 | `missingFeatures` is a subsequence of `rankedFeatures`: it keeps the ranked order. |
| `Scoring.FloorplanBonus` | server/src/lib/matcher.ts:75-76 | The bonus is 15 iff the floorplan is among the preferred ones, and 0 iff it is not. |
| `Scoring.RoundHalfUp` | server/src/lib/matcher.ts:85 | `Math.round(num/den)` is the integer r with r - 1/2 <= num/den < r + 1/2: the nearest integer, with halves rounded up. |
| `Scoring.NormaliseInRange` | server/src/lib/matcher.ts:79-89 | For a raw score between 0 and the denominator, the fallback 50 and the clamp to 100 never take effect. The score is the rounded percentage, in 0..100. |
| `Scoring.NormaliseMonotone` | server/src/lib/matcher.ts:84-89 | A higher raw score never gives a lower normalised score. |
| `Scoring.ScoreRVInRange` | server/src/lib/matcher.ts:58-96 | Every scored record keeps its source RV. Its score is the half-up rounded percentage of (featureScore + floorplanBonus) over the denominator, and lies in 0..100. |
| `Scoring.PerfectMatchScores100` | server/src/lib/matcher.ts:59-89 | With at least one ranked feature, an RV that has all ranked features and a preferred floorplan scores exactly 100. |
| `Ranking.InsertSorted` | server/src/lib/matcher.ts:99 | Inserting a record into a list sorted by descending score keeps it sorted. |
| `Ranking.InsertKeepsClasses` | server/src/lib/matcher.ts:99 | Insertion keeps the records of each score in the same relative order. |
| `Ranking.InsertPermutes` | server/src/lib/matcher.ts:99 | Insertion adds exactly the inserted record to the multiset of records. |
| `Ranking.RankSorted` | server/src/lib/matcher.ts:99 | The reference sort yields non-increasing scores. |
| `Ranking.RankStable` | server/src/lib/matcher.ts:99 | The reference sort is stable: for each score, the records with that score keep their input order. |
| `Ranking.RankPermutes` | server/src/lib/matcher.ts:99 | The reference sort is a permutation of its input. |
| `Ranking.SortedUnique` | server/src/lib/matcher.ts:99 | Two sequences sorted by descending score whose score classes agree are equal. So a stable descending sort has exactly one possible result. |
| `Ranking.RankIdempotent` | server/src/lib/matcher.ts:99 | Sorting a sorted result again changes nothing. |
| `Ranking.SwapKeepsClasses` | server/src/lib/matcher.ts:99 | Swapping two adjacent records of different scores keeps every score class. |
| `Ranking.InsertAt` | server/src/lib/matcher.ts:99 | One pass of the in-place sort extends the sorted prefix by one record. The first i+1 records stay the same multiset, the records after them are untouched, and every score class keeps its order. |
| `Ranking.SortByScore` | server/src/lib/matcher.ts:99 | `results.sort((a, b) => b.score - a.score)` leaves the array equal to the reference stable descending sort of its old contents. |
| `Ranking.RankCopy` | server/src/lib/matcher.ts:99 | Sorting a copy of the results in an array returns the reference stable sort of the results. |
| `Matcher.ScoreOne` | server/src/lib/matcher.ts:58-96 | The loop body after the filters returns a record equal to `ScoreRV(rv, prefs)`. |
| `Matcher.ScoreAndRank` | server/src/lib/matcher.ts:45-100 | The loop with its five `continue` filters, followed by the sort, returns the stable descending sort of the eligible RVs, each scored, in input order. |
| `Matcher.ShortlistSound` | server/src/lib/matcher.ts:48-97 | Every record in the unsorted results is the scored record of an eligible input RV. |
| `Matcher.ShortlistComplete` | server/src/lib/matcher.ts:48-97 | The scored record of every eligible input RV is in the unsorted results. |
| `Matcher.FilterSound` | server/src/lib/matcher.ts:52-56 | Every returned record comes from an input RV that meets all five hard constraints, and equals that RV's scored record. |
| `Matcher.FilterComplete` | server/src/lib/matcher.ts:48-99 | Every eligible input RV is returned. The output is a permutation of the scored, filtered input. |
| `Matcher.RankedStably` | server/src/lib/matcher.ts:99 | The output has non-increasing scores. RVs with equal scores keep their input order. |
| `Matcher.RankingIdempotent` | server/src/lib/matcher.ts:99 | Ranking the output again yields the same sequence. |
| `Matcher.ScoresInRange` | server/src/lib/matcher.ts:84-89 | Every returned score is an integer in 0..100. |
| `Matcher.StricterShortlist` | server/src/lib/matcher.ts:55 | Adding a must-have key gives a sub-multiset of the unsorted results. |
| `Matcher.MoreMustHaveNeverEnlarges` | server/src/lib/matcher.ts:55 | Adding a must-have key never adds a result. The new output is a sub-multiset of the old one and is no longer. |
| `Scenarios.ClassAListingFeatures` | server/src/lib/matcher.ts:59-72 | Both ranked features present: feature score 2 + 1 = 3, matched in ranked order, nothing missing. |
| `Scenarios.FullMatchScores100` | server/src/lib/matcher.ts:59-89 | Two ranked features, both present, plus a preferred floorplan: feature score 3, bonus 15, score 100. |
| `Scenarios.WrongTypeExcluded` | server/src/lib/matcher.ts:52 | A class B listing is dropped when only class A is wanted. |
| `Scenarios.PartialMatchScores89` | server/src/lib/matcher.ts:59-89 | Only the second-ranked feature plus the preferred floorplan gives 16 of 18, which rounds to 89. |
| `Scenarios.NothingRankedScoresZero` | server/src/lib/matcher.ts:79-89 | With nothing ranked and no preferred floorplan, every score is 0 of 16. |
| `Scenarios.MissingMustHaveExcludes` | server/src/lib/matcher.ts:55 | A listing without a must-have feature is absent from the output. |
| `Scenarios.RankTiedPair` | server/src/lib/matcher.ts:99 | Two records of equal score behind a better one: the better one comes first and the tied pair keeps its order. |
| `Scenarios.TieScores` | server/src/lib/matcher.ts:59-89 | Concrete scores of 6, 6 and 89 for three listings. |
| `Scenarios.TieShortlist` | server/src/lib/matcher.ts:48-97 | All three of those listings pass the filters, in input order. |
| `Scenarios.ExactHalfRoundsUp` | server/src/lib/matcher.ts:79-85 | With 14 ranked features the denominator is 120, and a raw score of 69 (exactly 57.5 percent) normalises to 58 in exact arithmetic; the program's doubles give 57 (see Left out). |
| `Scenarios.TiesKeepInputOrder` | server/src/lib/matcher.ts:87-99 | The output is the best listing first, then the two tied ones in input order. |

## Left out

- HTTP routes, handlers and database queries are not part of this model. The routes fetch only approved RVs and pass the request body straight to `scoreAndRank` (`server/src/routes/*.ts`, `api/**`). Those RVs are the input sequence here.
- The React client is not part of this model. That includes its list toggles, its three-floorplan cap and its feature reordering.
- The feature-key cleanup in the features handler is not part of this model.
- The seed script is not part of this model.
- IEEE floating point is not modelled. `rawScore / maxPossibleScore * 100` is computed as an exact rational and rounded half up: `(200*raw + max) div (2*max)`. A floating-point result that lands a hair below an exact `.5` is therefore not reproduced. This case is reachable: with 14 ranked features the denominator is 120, and a raw score of 69 gives `(69/120)*100 = 57.49999999999999` in IEEE doubles, which `Math.round` takes to 57, while the model's `Normalise(69, 14)` is 58.
- Lengths are `real` and sleeping capacities are `int`. JavaScript's number type (doubles, NaN) is not modelled.
- Malformed preferences are not modelled; the model covers well-typed preferences only. Both handlers cast the request body to `Preferences` unchecked (server/src/routes/match.ts:11, api/match.ts:9) and reject only a missing body (400). A body without `rvTypes`, `mustHaveFeatures`, `rankedFeatures` or `preferredFloorplans` makes the core throw a TypeError at the first RV that reaches the line using that array, and the handler's catch answers 500. An absent `maxLengthFt` or `minSleeps` behaves like null and imposes no constraint, which is what `None` models.
- The optional `mustHaveFloorplans` field is a plain list, and an absent field is the empty list. The client never sends the field, and `?.length > 0` treats absence like an empty list.
- The Prisma join shape `features: [{ feature: { key, label } }]` is flattened to a sequence of `Feature(key, labelText)`. `labelText` is used because `label` is a Dafny keyword. `type` becomes `rvType` for the same reason.
- Duplicate keys in `rankedFeatures` are allowed and scored exactly as the loop scores them: each position earns its own weight.
- The tie order is the input order. The database query has no `orderBy`, so that order is whatever the store returns. The model takes the input sequence as given.
