/**
 * Worked cases of the payout engine: a sparse payout table, a storm passing
 * near Miami, wind and pressure reaching the top category independently, and
 * a portfolio whose sum exceeds its aggregate limit.
 */
module Scenarios {
  import opened Basics
  import opened Geometry
  import opened Classifier
  import opened Evaluator
  import opened Portfolio

  /** A wind-only table defining categories 1, 3 and 5 (Min_Wind 64, 96, 137; pays 10%, 50%, 100%). */
  const SparseTable: seq<Tier> := [Tier(1, Some(64.0), None, 0.10), Tier(3, Some(96.0), None, 0.50),
                                   Tier(5, Some(137.0), None, 1.0)]

  /**
   * A category missing from a sparse table pays the best rate at or below it:
   * 4 pays category 3's rate (not 0, not category 5's), 2 pays category 1's,
   * 6 pays category 5's, and 0 pays nothing.
   */
  lemma SparseTableFallsBack()
    ensures ResolvePayout(SparseTable, 4) == 0.50
    ensures ResolvePayout(SparseTable, 2) == 0.10
    ensures ResolvePayout(SparseTable, 6) == 1.0
    ensures ResolvePayout(SparseTable, 0) == 0.0
  {
    var t := SparseTable;
    assert t[0] in t && t[1] in t && t[2] in t;
    assert forall tier :: tier in t ==> tier == t[0] || tier == t[1] || tier == t[2];
  }

  /** Two six-hourly fixes of a hurricane approaching Miami from the south. */
  const StormTrack: seq<TrackPoint> := [TrackPoint(25.0, -80.0, Some(100.0), None),
                                        TrackPoint(25.5, -80.2, Some(115.0), None)]

  /** A location in Miami with a 50-mile radius, paying on the sparse table. */
  const Miami: Policy := Policy(Some(25.7617), Some(-80.1918), Some(50.0), SparseTable)

  /**
   * The location lies beyond the second fix along the segment, so the
   * projection clamps to that fix. When the fix is within 50 miles of the
   * location (the geodesic distance is about 18 miles), `max_outcome`
   * achieves category 3 (115 knots is at least 96 and below 137) and pays 50%.
   */
  lemma MiamiScenario(track: seq<TrackPoint>, policy: Policy, geo: DistanceOracle)
    requires track == StormTrack && policy == Miami
    requires Within(geo(25.7617, -80.1918, 25.5, -80.2), 50.0)
    ensures Evaluate(track, policy, MaxOutcome, geo).Success?
    ensures var o := Evaluate(track, policy, MaxOutcome, geo).value;
      o.triggered && o.category == 3 && o.ratio == 0.50
  {
    var site := Site(25.7617, -80.1918, 50.0);
    var t := policy.table;
    var p1, p2 := track[0], track[1];
    assert ProjectionParam(p1, p2, site.lat, site.lon) >= 1.0;
    assert ClosestParam(p1, p2, site.lat, site.lon) == 1.0;
    assert Hits(track, 0, site, geo);
    forall tier | tier in t
      ensures tier.category <= 3 || !Qualifies(WindReading(115.0), tier)
      ensures tier.category != 3 || tier == t[1]
    {
      var i :| 0 <= i < |t| && t[i] == tier;
    }
    CategoryIsStrongestTriggered(p1.wind, p1.pres, t);
    CategoryIsStrongestTriggered(p2.wind, p2.pres, t);
    assert t[1] in t;
    assert SegmentCategory(track, 0, t) == 3;
    assert MaxOutcomeBefore(track, 1, site, t, geo).category == 3;
    assert Scanned(track, site, t, MaxOutcome, geo).category == 3;
    assert FirstMatchAt(t, 3, 0.50, 1);
  }

  /** A five-category table with both wind and pressure thresholds. */
  const FullTable: seq<Tier> := [Tier(1, Some(64.0), Some(980.0), 0.10), Tier(2, Some(83.0), Some(965.0), 0.25),
                                 Tier(3, Some(96.0), Some(945.0), 0.50), Tier(4, Some(113.0), Some(920.0), 0.75),
                                 Tier(5, Some(137.0), Some(900.0), 1.0)]

  /**
   * Wind and pressure are independent paths: a 150-knot wind at standard
   * pressure and a calm 900 mb reading both reach category 5.
   */
  lemma WindAndPressureAreIndependent(t: seq<Tier>)
    requires t == FullTable
    ensures Category(Some(150.0), Some(1013.0), t) == 5
    ensures Category(Some(0.0), Some(900.0), t) == 5
  {
    forall tier | tier in t
      ensures tier.category <= 5
      ensures tier.minWind.Some? && tier.minWind.value > 0.0
      ensures tier.maxPressure.Some? && tier.maxPressure.value < 1013.0
    {
      var i :| 0 <= i < |t| && t[i] == tier;
    }
    assert t[4] in t;
    assert PathCategory(WindReading(150.0), t) == 5;
    assert PathCategory(PressureReading(900.0), t) == 5;
    assert PathCategory(PressureReading(1013.0), t) == 0;
    assert PathCategory(WindReading(0.0), t) == 0;
  }

  /**
   * Two locations each paying $600,000 under a $1,000,000 aggregate limit: the
   * total is capped at $1,000,000 and the uncapped sum is $1,200,000.
   */
  lemma AggregateCap(track: seq<TrackPoint>, a: Location, b: Location, profiles: seq<Profile>,
                     trigger: TriggerMethod, geo: DistanceOracle)
    requires LocationResult(track, a, profiles, trigger, geo).Success?
    requires LocationResult(track, a, profiles, trigger, geo).value.payout == 600000.0
    requires LocationResult(track, b, profiles, trigger, geo).Success?
    requires LocationResult(track, b, profiles, trigger, geo).value.payout == 600000.0
    ensures EvaluatedPortfolio(track, [a, b], 1000000.0, profiles, trigger, geo).Success?
    ensures var o := EvaluatedPortfolio(track, [a, b], 1000000.0, profiles, trigger, geo).value;
      o.total == 1000000.0 && o.uncapped == 1200000.0
  {
    var da := LocationResult(track, a, profiles, trigger, geo).value;
    var db := LocationResult(track, b, profiles, trigger, geo).value;
    BreakdownOfTwo(track, a, b, profiles, trigger, geo, da, db);
    SumOfTwo(da, db);
  }

  lemma BreakdownOfTwo(track: seq<TrackPoint>, a: Location, b: Location, profiles: seq<Profile>,
                       trigger: TriggerMethod, geo: DistanceOracle, da: Detail, db: Detail)
    requires LocationResult(track, a, profiles, trigger, geo) == Success(da)
    requires LocationResult(track, b, profiles, trigger, geo) == Success(db)
    ensures Breakdown(track, [a, b], profiles, trigger, geo) == Success([da, db])
  {
    CollectTwo(LocationResults(track, [a, b], profiles, trigger, geo), da, db);
  }

  lemma CollectTwo<T>(rs: seq<Result<T, EngineError>>, x: T, y: T)
    requires |rs| == 2 && rs[0] == Success(x) && rs[1] == Success(y)
    ensures Collect(rs) == Success([x, y])
  {
    var one := rs[..1];
    assert one == [Success(x)];
    assert one[..0] == [];
    assert Collect(one[..0]) == Success([]);
    assert one[..|one| - 1] == one[..0] && one[|one| - 1] == Success(x);
    assert [] + [x] == [x];
    assert Collect(one) == Success([x]);
    assert rs[..|rs| - 1] == one && rs[|rs| - 1] == Success(y);
    assert [x] + [y] == [x, y];
  }

  lemma SumOfTwo(x: Detail, y: Detail)
    ensures SumPayouts([x, y]) == x.payout + y.payout
  {
    var both := [x, y];
    assert both[..1] == [x];
    assert [x][..0] == [];
    assert SumPayouts([x]) == x.payout;
  }
}
