/**
 * What `evaluate_portfolio_complex` promises about its result: when it
 * raises, that the breakdown follows the locations, that the total is the
 * capped sum, and when the portfolio counts as triggered.
 */
module PortfolioFacts {
  import opened Basics
  import opened Geometry
  import opened Classifier
  import opened Evaluator
  import opened EvaluatorFacts
  import opened Portfolio

  /** The location has no latitude, longitude or radius. */
  predicate MissingGeometry(loc: Location)
  {
    loc.lat.None? || loc.lon.None? || loc.radius.None?
  }

  /**
   * A location raises exactly when there are no profiles to resolve, or when
   * its geometry is incomplete; the profile lookup comes first.
   */
  lemma LocationFailsIff(track: seq<TrackPoint>, loc: Location, profiles: seq<Profile>, trigger: TriggerMethod,
                         geo: DistanceOracle)
    ensures var r := LocationResult(track, loc, profiles, trigger, geo);
      && (r.Failure? <==> |profiles| == 0 || MissingGeometry(loc))
      && (r.Failure? ==> r.error == if |profiles| == 0 then NoPayoutProfiles else MissingPolicyParameters)
  {
    var resolved := ResolveProfile(profiles, loc.profile);
    if resolved.Success? {
      EvaluateOutcome(track, Policy(loc.lat, loc.lon, loc.radius, resolved.value), trigger, geo);
    }
  }

  /**
   * A successful location's row carries its name and the flag, category and
   * minimum distance of its evaluation under the resolved table, and pays
   * that evaluation's `LocationPayout`; the evaluation triggered exactly when
   * its ratio is positive.
   */
  lemma LocationRow(track: seq<TrackPoint>, loc: Location, profiles: seq<Profile>, trigger: TriggerMethod,
                    geo: DistanceOracle)
    requires LocationResult(track, loc, profiles, trigger, geo).Success?
    ensures ResolveProfile(profiles, loc.profile).Success?
    ensures var d := LocationResult(track, loc, profiles, trigger, geo).value;
      var o := Evaluate(track, Policy(loc.lat, loc.lon, loc.radius, ResolveProfile(profiles, loc.profile).value),
                        trigger, geo).value;
      && d.location == loc.name
      && d.triggered == o.triggered && d.category == o.category && d.minDist == o.minDist
      && d.payout == LocationPayout(o, loc)
      && (o.triggered <==> o.ratio > 0.0)
  {
    var resolved := ResolveProfile(profiles, loc.profile);
    EvaluateOutcome(track, Policy(loc.lat, loc.lon, loc.radius, resolved.value), trigger, geo);
  }

  /**
   * A location pays ratio × sublimit when it triggers and nothing otherwise;
   * as a triggered ratio is positive, a non-negative sublimit pays at least 0.
   */
  lemma LocationPayoutFacts(o: Outcome, loc: Location)
    requires o.triggered <==> o.ratio > 0.0
    ensures o.triggered ==> LocationPayout(o, loc) == o.ratio * loc.sublimit
    ensures !o.triggered ==> LocationPayout(o, loc) == 0.0
    ensures loc.sublimit >= 0.0 ==> LocationPayout(o, loc) >= 0.0
  {
    if o.triggered && loc.sublimit >= 0.0 {
      ProductNonneg(o.ratio, loc.sublimit);
    }
  }

  /**
   * The portfolio raises exactly when some location raises: when there is a
   * location but no profile, or some location lacks its geometry.
   */
  lemma PortfolioFailsIff(track: seq<TrackPoint>, locs: seq<Location>, limit: real, profiles: seq<Profile>,
                          trigger: TriggerMethod, geo: DistanceOracle)
    ensures EvaluatedPortfolio(track, locs, limit, profiles, trigger, geo).Failure? <==>
      (|locs| > 0 && |profiles| == 0) || exists i :: 0 <= i < |locs| && MissingGeometry(locs[i])
  {
    var rs := LocationResults(track, locs, profiles, trigger, geo);
    var r := Collect(rs);
    assert EvaluatedPortfolio(track, locs, limit, profiles, trigger, geo).Failure? <==> r.Failure?;
    forall i | 0 <= i < |locs|
      ensures rs[i].Failure? <==> |profiles| == 0 || MissingGeometry(locs[i])
    {
      LocationFailsIff(track, locs[i], profiles, trigger, geo);
    }
    if r.Failure? {
      var i :| FirstFailureAt(rs, i, r.error);
    } else {
      assert forall i :: 0 <= i < |locs| ==> rs[i].Success?;
    }
  }

  /**
   * The breakdown has one row per location, in input order, each carrying the
   * location's name and its evaluation.
   */
  lemma BreakdownFollowsLocations(track: seq<TrackPoint>, locs: seq<Location>, limit: real, profiles: seq<Profile>,
                                  trigger: TriggerMethod, geo: DistanceOracle)
    requires EvaluatedPortfolio(track, locs, limit, profiles, trigger, geo).Success?
    ensures var b := EvaluatedPortfolio(track, locs, limit, profiles, trigger, geo).value.breakdown;
      && |b| == |locs|
      && forall i :: 0 <= i < |locs| ==>
           b[i].location == locs[i].name && Success(b[i]) == LocationResult(track, locs[i], profiles, trigger, geo)
  {
    var b := EvaluatedPortfolio(track, locs, limit, profiles, trigger, geo).value.breakdown;
    forall i | 0 <= i < |locs| ensures b[i].location == locs[i].name {
      LocationRow(track, locs[i], profiles, trigger, geo);
    }
  }

  /**
   * The total is the uncapped sum capped at the aggregate limit: never more
   * than either, and equal to one of them.
   */
  lemma TotalIsCapped(track: seq<TrackPoint>, locs: seq<Location>, limit: real, profiles: seq<Profile>,
                      trigger: TriggerMethod, geo: DistanceOracle)
    requires EvaluatedPortfolio(track, locs, limit, profiles, trigger, geo).Success?
    ensures var o := EvaluatedPortfolio(track, locs, limit, profiles, trigger, geo).value;
      && o.total <= limit && o.total <= o.uncapped
      && (o.total == o.uncapped || o.total == limit)
      && o.uncapped == SumPayouts(o.breakdown)
  {
  }

  /** The portfolio is triggered exactly when some location triggered, whatever the cap. */
  lemma TriggeredIffSomeLocation(track: seq<TrackPoint>, locs: seq<Location>, limit: real, profiles: seq<Profile>,
                                 trigger: TriggerMethod, geo: DistanceOracle)
    requires EvaluatedPortfolio(track, locs, limit, profiles, trigger, geo).Success?
    ensures EvaluatedPortfolio(track, locs, limit, profiles, trigger, geo).value.triggered <==>
      exists i :: 0 <= i < |locs| && LocationResult(track, locs[i], profiles, trigger, geo).value.triggered
  {
    var b := EvaluatedPortfolio(track, locs, limit, profiles, trigger, geo).value.breakdown;
    BreakdownFollowsLocations(track, locs, limit, profiles, trigger, geo);
    if i :| 0 <= i < |locs| && LocationResult(track, locs[i], profiles, trigger, geo).value.triggered {
      assert b[i].triggered;
    }
  }

  /** A sum of payouts that are all non-negative is non-negative. */
  lemma {:induction false} SumPayoutsNonnegative(ds: seq<Detail>)
    requires forall i :: 0 <= i < |ds| ==> ds[i].payout >= 0.0
    ensures SumPayouts(ds) >= 0.0
  {
    if |ds| > 0 {
      SumPayoutsNonnegative(ds[..|ds| - 1]);
    }
  }

  /** With non-negative sublimits, neither the uncapped sum nor (under a non-negative limit) the total is negative. */
  lemma PayoutsNonnegative(track: seq<TrackPoint>, locs: seq<Location>, limit: real, profiles: seq<Profile>,
                           trigger: TriggerMethod, geo: DistanceOracle)
    requires EvaluatedPortfolio(track, locs, limit, profiles, trigger, geo).Success?
    requires forall i :: 0 <= i < |locs| ==> locs[i].sublimit >= 0.0
    ensures EvaluatedPortfolio(track, locs, limit, profiles, trigger, geo).value.uncapped >= 0.0
    ensures limit >= 0.0 ==> EvaluatedPortfolio(track, locs, limit, profiles, trigger, geo).value.total >= 0.0
  {
    var b := EvaluatedPortfolio(track, locs, limit, profiles, trigger, geo).value.breakdown;
    BreakdownFollowsLocations(track, locs, limit, profiles, trigger, geo);
    forall i | 0 <= i < |b| ensures b[i].payout >= 0.0 {
      LocationRow(track, locs[i], profiles, trigger, geo);
      var table := ResolveProfile(profiles, locs[i].profile).value;
      LocationPayoutFacts(Evaluate(track, Policy(locs[i].lat, locs[i].lon, locs[i].radius, table), trigger, geo).value,
                          locs[i]);
    }
    SumPayoutsNonnegative(b);
  }
}
