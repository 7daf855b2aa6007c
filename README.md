# Parametric hurricane payout engine — Dafny model

This project models the payout engine of a parametric hurricane insurance
tool (`src/payout_engine.py`). Given a storm track, the engine decides, for
each insured location, whether the storm came close enough and was strong
enough to pay. It has four parts:

- **Segment projection** (`interpolate_segment`). This is `Geometry.InterpolateSegment`.
  - It projects the location onto each track segment in the flat (lat, lon) plane and clamps the parameter to [0, 1].
  - It measures the geodesic distance to the projected point.
  - Within the radius, it interpolates wind (missing means calm, 0) and pressure (missing means 1013 mb).
- **Category classifier** (`determine_category`). This is `Classifier.Category` and `Classifier.DetermineCategory`.
  - One scan of the payout table for wind (at least `Min_Wind`).
  - One scan for positive pressure (at most `Max_Pressure`).
  - The result is the larger of the two.
- **Single-location evaluator** (`evaluate_payout_complex`). This is `Evaluator.Evaluate` and `Evaluator.EvaluatePayout`.
  - The `interpolated` method queues in-radius projections and every raw track point, then scans the queue.
  - The `max_outcome` method scores each segment that reaches the radius with the stronger category of its two endpoints.
  - Both track the minimum distance.
  - Both resolve the payout ratio in this order: the first exact category row, else the best `Payout_Pct` at or below the category, else 0.
- **Portfolio evaluator** (`evaluate_portfolio_complex`). This is `Portfolio.EvaluatedPortfolio` and `Portfolio.EvaluatePortfolio`.
  - It resolves each location's profile: named, else `"Default"`, else the first.
  - It pays ratio × sublimit for each triggered location.
  - It caps the sum at the aggregate limit.

Each loop of the source is a `method` proved against a specification
function: `DetermineCategory`, `CollectPoints`, `ScanSegment(s)`,
`ScanPoints`, `EvaluatePayout`, `EvaluateLocation` and `EvaluatePortfolio`.
The properties are proved about those functions:

- the two methods agree on the minimum distance;
- the category is the strongest trigger inside the radius;
- the category is monotone in the radius, and so is the payout on a table whose rate does not fall as the category rises;
- the table's fallback rule holds;
- the engine raises exactly when it should;
- the cap, and the portfolio's trigger flag, behave as documented.

Modelling choices:

- **Distance.** The geodesic distance is a parameter `geo: DistanceOracle`.
  It returns `Fin(miles)`, or `Inf` where the source returns `float('inf')`.
- **Missing readings.** A missing or NaN reading, or a NaN table threshold, is `None`.
- **Numbers.** Reals are exact.
- **Errors.** A raised error is a `Failure`:
  - `MissingPolicyParameters` for a missing lat, lon or radius;
  - `NoPayoutProfiles` where `list(payout_profiles.values())[0]` would fail on an empty dictionary.

The docstring at line 98 says that `max_outcome` checks points. In the code its
category comes only from segments, and the model follows the code:

- **Raw points in `max_outcome`.** In `max_outcome`, raw track points only
  update the minimum distance. They never add their own category (lines
  158-162 and 184-190). So a track that never reaches the radius along a
  segment reaches category 0, even if a raw point lies inside it. This includes a
  stationary track, where every segment has coincident endpoints
  (`EvaluatorFacts.MaxOutcomeNeedsAHit`). When every row's category is positive,
  such a track pays nothing.

Behaviour worth noting:

- **Unknown trigger method.** A trigger method that is neither name queues
  nothing and scans nothing. It yields category 0 and an infinite distance
  (`EvaluatorFacts.UnrecognisedScansNothing`).
- **NaN on raw points.** For raw points the readings are used as recorded: a
  NaN pressure is skipped by the classifier, not replaced by 1013 (lines
  171-177 and 201-204 use `.get`, which returns the NaN). Only interpolated
  points substitute 0 and 1013 (lines 49-52).

## Model

| member | source | states |
|---|---|---|
| Geometry.Nearer | src/payout_engine.py:193-197 | the running minimum after a comparison is at most both the old minimum and the new distance, and is one of them |
| Geometry.ClampUnit | src/payout_engine.py:38 | `max(0, min(1, t))` lies in [0, 1], is 0 for t ≤ 0, 1 for t ≥ 1 and t itself inside |
| Geometry.Lerp | src/payout_engine.py:41-42 | the interpolated value lies between the two endpoint values and equals them at t = 0 and t = 1 |
| Geometry.InterpolateSegment | src/payout_engine.py:11-64 | coincident endpoints give None. Otherwise a record is returned exactly when the geodesic distance to the clamped closest point is within the radius. The record's distance is that distance. Its lat, lon, wind and pressure lie between the endpoint values (missing wind 0, missing pressure 1013). A projection before p1 or beyond p2 yields that endpoint's values |
| Geometry.InterpolateSegmentIsNearest | src/payout_engine.py:11-64 | a returned record is a point of the segment itself, at a parameter s in [0, 1] where its lat and lon are interpolated. Wind and pressure are interpolated at the same s. That point is nearest to the location in the flat plane among all points of the segment |
| Geometry.InterpolateSegmentWiderRadius | src/payout_engine.py:44-46 | a segment inside a radius is inside every larger radius with the same record |
| Geometry.ClosestPointIsNearest | src/payout_engine.py:25-42 | the clamped projection is the point of the whole segment nearest to the location in the flat plane (no parameter s in [0,1] is nearer) |
| Classifier.PathCategory | src/payout_engine.py:78-91 | one scan of the table yields a non-negative category, at least every qualifying row's category, and 0 or some qualifying row's category |
| Classifier.CategoryIsStrongestTriggered | src/payout_engine.py:66-93 | the category is ≥ 0, at least the category of every row reached by the wind scan or the positive-pressure scan, and 0 or the category of such a row |
| Classifier.Category | src/payout_engine.py:66-93 | the category is non-negative, and 0 when there is no wind reading and no positive pressure; `CategoryIsStrongestTriggered` states the rest of its meaning |
| Classifier.DetermineCategory | src/payout_engine.py:66-93 | the two loops compute `Category` of the reading |
| Classifier.CategoryIgnoresRowOrder | src/payout_engine.py:76-81 | the category depends only on the set of rows, not their order, so the sortedness the code's comment assumes is not needed |
| Classifier.CategoryMonotoneInWind | src/payout_engine.py:78-81 | a stronger wind never lowers the category |
| Classifier.CategoryMonotoneInPressure | src/payout_engine.py:87-91 | a lower positive pressure never lowers the category |
| Evaluator.CandidateFoldBounds | src/payout_engine.py:193-206 | the final scan ends at a distance at most the start and every queued distance, equal to the start or a queued distance; and at a category at least the start and every in-radius candidate's, equal to the start or an in-radius candidate's |
| Evaluator.CandidatesBeforeComplete | src/payout_engine.py:122-136 | after k segments the queue holds every raw point p1 and every in-radius projection of those segments |
| Evaluator.CandidatesBeforeSound | src/payout_engine.py:122-136 | everything queued after k segments is such a raw point or in-radius projection |
| Evaluator.PointsToCheckMembers | src/payout_engine.py:118-143 | a candidate is in `points_to_check` exactly when it is a raw track point (the last one included) or the projection of a segment within the radius |
| Evaluator.MaxOutcomeBeforeCategory | src/payout_engine.py:150-182 | after k segments the category is the largest segment category (max of the endpoints' categories) among the segments whose projection is within the radius, or 0 when none is |
| Evaluator.MaxOutcomeBeforeStep | src/payout_engine.py:164-182 | one segment raises the category to its segment category exactly when it hits the radius |
| Evaluator.MaxOutcomeBeforeMinDist | src/payout_engine.py:158-167 | after k segments the minimum distance is at most every first-point distance and every in-radius projection distance, is one of them, and is infinite before any segment |
| Evaluator.FirstExactPct | src/payout_engine.py:214-216 | None exactly when no row has the category; otherwise the `Payout_Pct` of the first row with that category |
| Evaluator.BestPctAtMost | src/payout_engine.py:226-228 | None exactly when every row's category is above c; otherwise the largest `Payout_Pct` among rows at or below c |
| Evaluator.ResolvePayoutMeaning | src/payout_engine.py:209-228 | an exact row pays its first match's rate; with no exact row and some row below, the best rate at or below; with every row above, 0 |
| Evaluator.ResolvePayout | src/payout_engine.py:209-228 | the ratio is 0 or the `Payout_Pct` of some row of the table; `ResolvePayoutMeaning` states which row |
| Evaluator.CollectPoints | src/payout_engine.py:118-143 | the `interpolated` loop builds exactly the queue `PointsToCheck` |
| Evaluator.ScanSegment | src/payout_engine.py:151-182 | one iteration of the `max_outcome` loop performs `MaxOutcomeStep` |
| Evaluator.ScanSegments | src/payout_engine.py:145-190 | the `max_outcome` loop and the last-point check compute `MaxOutcomeScan` |
| Evaluator.ScanPoints | src/payout_engine.py:193-206 | the final loop over the queue computes `CandidateFold` |
| Evaluator.EvaluatePayout | src/payout_engine.py:95-237 | the evaluator method returns `Evaluate` of its inputs |
| Evaluator.Evaluate | src/payout_engine.py:95-237 | the evaluation raises exactly when lat, lon or radius is missing, and then with `MissingPolicyParameters`; `EvaluateOutcome`, `MinDistAgrees` and the category lemmas state the successful outcome |
| EvaluatorFacts.NearestObservedUnique | src/payout_engine.py:112-197 | at most one distance is both observed and at most every observed distance |
| EvaluatorFacts.InterpolatedMinDist | src/payout_engine.py:118-143 | under `interpolated`, the minimum distance is the least of all raw-point distances and in-radius projection distances (infinite for an empty track) |
| EvaluatorFacts.MaxOutcomeMinDist | src/payout_engine.py:145-190 | under `max_outcome`, the minimum distance is that same least distance |
| EvaluatorFacts.MinDistAgrees | src/payout_engine.py:112-197 | both trigger methods report the same minimum distance |
| EvaluatorFacts.InterpolatedCategory | src/payout_engine.py:193-206 | under `interpolated`, the category is the largest category of an in-radius queued point, or 0 |
| EvaluatorFacts.MaxOutcomeCategory | src/payout_engine.py:145-182 | under `max_outcome`, the category is the largest segment category of a segment reaching the radius, or 0 |
| EvaluatorFacts.MaxOutcomeNeedsAHit | src/payout_engine.py:164-182 | under `max_outcome`, a track no segment of which reaches the radius achieves category 0 |
| EvaluatorFacts.UnrecognisedScansNothing | src/payout_engine.py:112-145 | an unrecognised trigger method leaves category 0 and infinite distance |
| EvaluatorFacts.CategoryInTable | src/payout_engine.py:66-93 | a classified category is 0 or some row's category |
| EvaluatorFacts.ScannedCategoryInTable | src/payout_engine.py:193-206 | the achieved category is non-negative and is 0 or a category of the table, under every trigger method |
| EvaluatorFacts.CategoryMonotoneInRadius | src/payout_engine.py:46 | a larger radius never lowers the achieved category, under every trigger method |
| EvaluatorFacts.ResolvePayoutIsBestAtMost | src/payout_engine.py:209-228 | for a table whose rate does not decrease with category, the ratio is the best rate at or below the category, and 0 when every row is above |
| EvaluatorFacts.ResolvePayoutMonotone | src/payout_engine.py:209-228 | for such a table with non-negative rates, a higher category never pays a lower ratio |
| EvaluatorFacts.TriggeredIffReachesTier | src/payout_engine.py:226-231 | with positive rates, the ratio is positive exactly when some row's category is at or below the achieved one |
| EvaluatorFacts.EvaluateOutcome | src/payout_engine.py:104-110 | the evaluator raises exactly when lat, lon or radius is missing, with `MissingPolicyParameters`; otherwise the category is ≥ 0 and 0 or in the table, and it triggers exactly when the ratio is positive |
| EvaluatorFacts.EmptyTrack | src/payout_engine.py:112-143 | an empty track gives category 0, infinite distance, the table's rate for category 0, and no trigger when every row's category is positive |
| EvaluatorFacts.PayoutMonotoneInRadius | src/payout_engine.py:199-231 | for a rate-monotone non-negative table, a larger radius never pays a lower ratio and keeps a trigger |
| Portfolio.Lookup | src/payout_engine.py:250 | None exactly when no profile has the name; otherwise a table stored under that name |
| Portfolio.ResolveProfile | src/payout_engine.py:249-259 | fails with `NoPayoutProfiles` exactly when there are no profiles. Otherwise it uses the named profile when present, else `"Default"` when present, else the first profile, and always some profile's table |
| Portfolio.LocationResults | src/payout_engine.py:248-268 | one result per location, in order, each the location's own evaluation |
| Portfolio.LocationResult | src/payout_engine.py:249-281 | a successful row carries the location's name; `LocationFailsIff` and `LocationRow` state when it raises and what the row holds |
| Portfolio.Collect | src/payout_engine.py:248-283 | when every location succeeds, the rows in order; otherwise the error of the first location that raises |
| Portfolio.EvaluatedPortfolio | src/payout_engine.py:239-292 | a successful portfolio has one breakdown row per location. Its total is at most both the limit and the uncapped sum, and the uncapped sum is the sum of the rows' payouts |
| Portfolio.EvaluateLocation | src/payout_engine.py:249-281 | the loop body computes `LocationResult` of the location |
| Portfolio.EvaluatePortfolio | src/payout_engine.py:239-292 | the portfolio loop returns `EvaluatedPortfolio` of its inputs |
| Portfolio.RowsExtend | src/payout_engine.py:271-283 | appending a row adds its payout to the total and its flag to the trigger-any flag |
| PortfolioFacts.LocationFailsIff | src/payout_engine.py:249-268 | a location raises exactly when there are no profiles (`NoPayoutProfiles`, first) or its geometry is incomplete (`MissingPolicyParameters`) |
| PortfolioFacts.LocationRow | src/payout_engine.py:268-281 | a row carries the location's name and the flag, category and distance of its evaluation under the resolved table. It pays that evaluation's `LocationPayout`, and the evaluation triggered exactly when its ratio is positive |
| PortfolioFacts.LocationPayoutFacts | src/payout_engine.py:270-272 | a location pays ratio × sublimit when triggered and 0 otherwise, and at least 0 for a non-negative sublimit |
| PortfolioFacts.PortfolioFailsIff | src/payout_engine.py:248-268 | the portfolio raises exactly when it has a location but no profiles, or some location lacks its geometry |
| PortfolioFacts.BreakdownFollowsLocations | src/payout_engine.py:275-281 | the breakdown has one row per location, in order, each that location's row |
| PortfolioFacts.TotalIsCapped | src/payout_engine.py:283-290 | the total is at most the limit and the uncapped sum, equals one of them, and the uncapped sum is the sum of the rows' payouts |
| PortfolioFacts.TriggeredIffSomeLocation | src/payout_engine.py:270-273 | the portfolio is triggered exactly when some location triggered, whatever the cap |
| PortfolioFacts.PayoutsNonnegative | src/payout_engine.py:283-290 | with non-negative sublimits the uncapped sum is non-negative, and so is the total under a non-negative limit |
| Scenarios.SparseTableFallsBack | src/payout_engine.py:214-228 | on a table defining categories 1, 3 and 5: category 4 pays category 3's rate, 2 pays 1's, 6 pays 5's and 0 pays nothing |
| Scenarios.MiamiScenario | src/payout_engine.py:145-190 | a two-fix track toward Miami under `max_outcome` is triggered with category 3 and ratio 0.5 when the second fix is within 50 miles |
| Scenarios.WindAndPressureAreIndependent | src/payout_engine.py:66-93 | a 150-knot wind at standard pressure and a calm 900 mb reading both reach category 5 |
| Scenarios.AggregateCap | src/payout_engine.py:283-290 | two locations each paying 600,000 under a 1,000,000 limit total 1,000,000, with an uncapped sum of 1,200,000 |

## Left out

- The geodesic distance (`geopy`'s `geodesic`) is a parameter `geo` that returns miles or infinity; its geometry is not modelled.
- Floating point is modelled with exact reals: no rounding, no NaN arithmetic.
- A NaN or missing reading, and a NaN table threshold, is `None`. A comparison with NaN is false, and the model follows that.
- `closest_point_data` is not modelled. It is returned but never read by the portfolio.
- Writing `dist` into the track's records (lines 135 and 142) is not modelled. It only annotates per-call copies of the records.
- The data frames become sequences of records; `iterrows`, `to_dict` and the masked selections are not modelled.
- A missing dictionary key (`KeyError` on `loc['lat']`, `loc['Name']`, `loc['sublimit']` and similar) is not modelled. Keys are assumed present. A present `None` lat, lon or radius is modelled.
- A `None` sublimit is not modelled: `sublimit` is a real. In the source it would raise `TypeError` at line 272 once the location triggers.
- An absent `Profile_Name` key is taken as already defaulted to `"Default"` in `Location.profile`.
- The profile dictionary is a sequence of (name, table) pairs; lookup takes the first entry with the name, and the first pair stands for the dictionary's first value.
- The default `trigger_method='max_outcome'` of `evaluate_payout_complex` (line 95) is not modelled: `Evaluate` always takes the method, as the only caller, the portfolio loop, always passes it.
- The Streamlit pages, the data loader, `find_url.py` and the test file are not part of this model.
- Evaluator.EvaluatePayout: the source's single function is split into the methods `CollectPoints`, `ScanSegments` (with `ScanSegment`) and `ScanPoints`. The order and the updates of its loops are kept.
- Geometry.ClosestPointIsNearest: states nearness in the flat (lat, lon) plane that the projection uses, not in geodesic distance, which the source only approximates by that projection.
