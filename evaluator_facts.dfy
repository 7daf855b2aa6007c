/**
 * What `evaluate_payout_complex` promises about its result: when it fails,
 * which category each trigger method achieves, what the minimum distance is,
 * how the payout ratio follows the table, and how all of these react to a
 * wider radius.
 */
module EvaluatorFacts {
  import opened Basics
  import opened Geometry
  import opened Classifier
  import opened Evaluator

  // ---------------------------------------------------------------------------
  // The minimum distance
  // ---------------------------------------------------------------------------

  /** `d` is at most the distance of every raw point and of every in-radius projection. */
  predicate BelowAllObserved(d: Miles, track: seq<TrackPoint>, site: Site, geo: DistanceOracle)
  {
    && (forall i :: 0 <= i < |track| ==> AtMost(d, RawDistance(track[i], site, geo)))
    && (forall i :: 0 <= i < |track| - 1 && Hits(track, i, site, geo) ==>
          AtMost(d, Fin(Project(track, i, site, geo).value.dist)))
  }

  /** `d` is the distance of some raw point or of some in-radius projection. */
  predicate Observed(d: Miles, track: seq<TrackPoint>, site: Site, geo: DistanceOracle)
  {
    || (exists i :: 0 <= i < |track| && d == RawDistance(track[i], site, geo))
    || (exists i :: 0 <= i < |track| - 1 && Hits(track, i, site, geo) && d == Fin(Project(track, i, site, geo).value.dist))
  }

  /**
   * `d` is the minimum distance of the track: the least distance of any raw
   * point (the last one included) or in-radius projection, and infinity for an
   * empty track.
   */
  predicate IsNearestObserved(d: Miles, track: seq<TrackPoint>, site: Site, geo: DistanceOracle)
  {
    && BelowAllObserved(d, track, site, geo)
    && (if |track| == 0 then d == Inf else Observed(d, track, site, geo))
  }

  /** There is only one minimum distance. */
  lemma NearestObservedUnique(d1: Miles, d2: Miles, track: seq<TrackPoint>, site: Site, geo: DistanceOracle)
    requires IsNearestObserved(d1, track, site, geo)
    requires IsNearestObserved(d2, track, site, geo)
    ensures d1 == d2
  {
    if |track| > 0 {
      assert AtMost(d1, d2) by {
        if i :| 0 <= i < |track| && d2 == RawDistance(track[i], site, geo) {
        } else {
          var i :| 0 <= i < |track| - 1 && Hits(track, i, site, geo) && d2 == Fin(Project(track, i, site, geo).value.dist);
        }
      }
      assert AtMost(d2, d1) by {
        if i :| 0 <= i < |track| && d1 == RawDistance(track[i], site, geo) {
        } else {
          var i :| 0 <= i < |track| - 1 && Hits(track, i, site, geo) && d1 == Fin(Project(track, i, site, geo).value.dist);
        }
      }
    }
  }

  /** Under `interpolated`, the reported minimum distance is the minimum distance of the track. */
  lemma InterpolatedMinDist(track: seq<TrackPoint>, site: Site, table: seq<Tier>, geo: DistanceOracle)
    ensures IsNearestObserved(Scanned(track, site, table, Interpolated, geo).minDist, track, site, geo)
  {
    var cs := PointsToCheck(track, site, geo);
    var r := CandidateFold(Scan(Inf, 0), cs, site.radius, table);
    CandidateFoldBounds(Scan(Inf, 0), cs, site.radius, table);
    assert Scanned(track, site, table, Interpolated, geo) == r;
    forall i | 0 <= i < |track| ensures AtMost(r.minDist, RawDistance(track[i], site, geo)) {
      var c := RawCandidate(track[i], site, geo);
      assert IsCandidate(c, track, site, geo);
      PointsToCheckMembers(track, site, geo, c);
    }
    forall i | 0 <= i < |track| - 1 && Hits(track, i, site, geo)
      ensures AtMost(r.minDist, Fin(Project(track, i, site, geo).value.dist))
    {
      var c := InterpCandidate(Project(track, i, site, geo).value);
      assert IsCandidate(c, track, site, geo);
      PointsToCheckMembers(track, site, geo, c);
    }
    if |track| == 0 {
      assert cs == [];
    } else if r.minDist == Inf {
      var n := |track| - 1;
      assert AtMost(r.minDist, RawDistance(track[n], site, geo));
      assert r.minDist == RawDistance(track[n], site, geo);
    } else {
      var c :| c in cs && r.minDist == c.dist;
      PointsToCheckMembers(track, site, geo, c);
    }
  }

  /** Under `max_outcome`, the reported minimum distance is the minimum distance of the track. */
  lemma MaxOutcomeMinDist(track: seq<TrackPoint>, site: Site, table: seq<Tier>, geo: DistanceOracle)
    ensures IsNearestObserved(Scanned(track, site, table, MaxOutcome, geo).minDist, track, site, geo)
  {
    if |track| > 0 {
      var n := |track| - 1;
      MaxOutcomeBeforeMinDist(track, n, site, table, geo);
      var s := MaxOutcomeBefore(track, n, site, table, geo);
      var last := RawDistance(track[n], site, geo);
      var d := Nearer(s.minDist, last);
      assert Scanned(track, site, table, MaxOutcome, geo).minDist == d;
      forall i | 0 <= i < |track| ensures AtMost(d, RawDistance(track[i], site, geo)) {
        if i < n {
          assert AtMost(s.minDist, RawDistance(track[i], site, geo));
        }
      }
      forall i | 0 <= i < |track| - 1 && Hits(track, i, site, geo)
        ensures AtMost(d, Fin(Project(track, i, site, geo).value.dist))
      {
        assert AtMost(s.minDist, Fin(Project(track, i, site, geo).value.dist));
      }
      if d != last && n > 0 {
        assert ObservedBefore(s.minDist, track, n, site, geo);
      }
    }
  }

  /** Both trigger methods report the same minimum distance. */
  lemma MinDistAgrees(track: seq<TrackPoint>, site: Site, table: seq<Tier>, geo: DistanceOracle)
    ensures Scanned(track, site, table, Interpolated, geo).minDist == Scanned(track, site, table, MaxOutcome, geo).minDist
  {
    InterpolatedMinDist(track, site, table, geo);
    MaxOutcomeMinDist(track, site, table, geo);
    NearestObservedUnique(Scanned(track, site, table, Interpolated, geo).minDist,
                          Scanned(track, site, table, MaxOutcome, geo).minDist, track, site, geo);
  }

  // ---------------------------------------------------------------------------
  // The achieved category
  // ---------------------------------------------------------------------------

  /** `c` is the largest category of an in-radius candidate of the `interpolated` method, or 0 if there is none. */
  ghost predicate IsMaxCandidateCategory(c: int, track: seq<TrackPoint>, site: Site, table: seq<Tier>, geo: DistanceOracle)
  {
    && c >= 0
    && (forall cand :: IsCandidate(cand, track, site, geo) && Within(cand.dist, site.radius) ==>
          CandidateCategory(cand, table) <= c)
    && (c == 0 || exists cand :: IsCandidate(cand, track, site, geo) && Within(cand.dist, site.radius)
                                 && CandidateCategory(cand, table) == c)
  }

  /**
   * Under `interpolated`, the achieved category is the largest category of a
   * raw point or projection inside the radius.
   */
  lemma InterpolatedCategory(track: seq<TrackPoint>, site: Site, table: seq<Tier>, geo: DistanceOracle)
    ensures IsMaxCandidateCategory(Scanned(track, site, table, Interpolated, geo).category, track, site, table, geo)
  {
    var cs := PointsToCheck(track, site, geo);
    var r := CandidateFold(Scan(Inf, 0), cs, site.radius, table);
    CandidateFoldBounds(Scan(Inf, 0), cs, site.radius, table);
    assert Scanned(track, site, table, Interpolated, geo) == r;
    forall cand | IsCandidate(cand, track, site, geo) && Within(cand.dist, site.radius)
      ensures CandidateCategory(cand, table) <= r.category
    {
      PointsToCheckMembers(track, site, geo, cand);
    }
    if r.category != 0 {
      var cand :| cand in cs && Within(cand.dist, site.radius) && CandidateCategory(cand, table) == r.category;
      PointsToCheckMembers(track, site, geo, cand);
    }
  }

  /**
   * Under `max_outcome`, the achieved category is the largest segment category
   * among segments whose projection falls inside the radius, or 0 if none does.
   */
  lemma MaxOutcomeCategory(track: seq<TrackPoint>, site: Site, table: seq<Tier>, geo: DistanceOracle)
    ensures IsMaxSegmentCategory(Scanned(track, site, table, MaxOutcome, geo).category,
                                 track, SegmentCount(track), site, table, geo)
  {
    var k := SegmentCount(track);
    MaxOutcomeBeforeCategory(track, k, site, table, geo);
    assert Scanned(track, site, table, MaxOutcome, geo).category == MaxOutcomeBefore(track, k, site, table, geo).category;
  }

  /**
   * Under `max_outcome`, a raw point inside the radius contributes no category
   * of its own: when no segment's projection falls inside the radius, the
   * achieved category is 0 whatever the raw points' distances.
   */
  lemma MaxOutcomeNeedsAHit(track: seq<TrackPoint>, site: Site, table: seq<Tier>, geo: DistanceOracle)
    requires forall i :: 0 <= i < |track| - 1 ==> !Hits(track, i, site, geo)
    ensures Scanned(track, site, table, MaxOutcome, geo).category == 0
  {
    MaxOutcomeCategory(track, site, table, geo);
  }

  /** An unrecognised trigger method scans nothing. */
  lemma UnrecognisedScansNothing(track: seq<TrackPoint>, site: Site, table: seq<Tier>, geo: DistanceOracle)
    ensures Scanned(track, site, table, Unrecognised, geo) == Scan(Inf, 0)
  {
    assert Queue(track, site, Unrecognised, geo) == [];
  }

  /** A category of a reading is 0 or the category of some row of the table. */
  lemma CategoryInTable(wind: Option<real>, pressure: Option<real>, table: seq<Tier>)
    ensures Category(wind, pressure, table) == 0
         || exists tier :: tier in table && tier.category == Category(wind, pressure, table)
  {
    CategoryIsStrongestTriggered(wind, pressure, table);
  }

  /** Under every method, the achieved category is 0 or the category of some row of the table. */
  lemma ScannedCategoryInTable(track: seq<TrackPoint>, site: Site, table: seq<Tier>, trigger: TriggerMethod,
                               geo: DistanceOracle)
    ensures Scanned(track, site, table, trigger, geo).category >= 0
    ensures var c := Scanned(track, site, table, trigger, geo).category;
      c == 0 || exists tier :: tier in table && tier.category == c
  {
    var c := Scanned(track, site, table, trigger, geo).category;
    match trigger
    case Interpolated =>
      InterpolatedCategory(track, site, table, geo);
      if c != 0 {
        var cand :| IsCandidate(cand, track, site, geo) && Within(cand.dist, site.radius)
                    && CandidateCategory(cand, table) == c;
        CategoryInTable(cand.wind, cand.pres, table);
      }
    case MaxOutcome =>
      MaxOutcomeCategory(track, site, table, geo);
      if c != 0 {
        var i :| 0 <= i < SegmentCount(track) && Hits(track, i, site, geo) && SegmentCategory(track, i, table) == c;
        CategoryInTable(track[i].wind, track[i].pres, table);
        CategoryInTable(track[i + 1].wind, track[i + 1].pres, table);
      }
    case Unrecognised =>
      UnrecognisedScansNothing(track, site, table, geo);
  }

  /** A raw candidate does not depend on the radius. */
  lemma RawCandidateIgnoresRadius(p: TrackPoint, lat: real, lon: real, r1: real, r2: real, geo: DistanceOracle)
    ensures RawCandidate(p, Site(lat, lon, r1), geo) == RawCandidate(p, Site(lat, lon, r2), geo)
  {
  }

  /** Widening the radius keeps every in-radius candidate of the `interpolated` method, still inside the radius. */
  lemma CandidateSurvivesWiderRadius(track: seq<TrackPoint>, lat: real, lon: real, r1: real, r2: real,
                                     geo: DistanceOracle, cand: Candidate)
    requires r1 <= r2
    requires IsCandidate(cand, track, Site(lat, lon, r1), geo) && Within(cand.dist, r1)
    ensures IsCandidate(cand, track, Site(lat, lon, r2), geo) && Within(cand.dist, r2)
  {
    var s1, s2 := Site(lat, lon, r1), Site(lat, lon, r2);
    if i :| 0 <= i < |track| && cand == RawCandidate(track[i], s1, geo) {
      RawCandidateIgnoresRadius(track[i], lat, lon, r1, r2, geo);
      assert cand == RawCandidate(track[i], s2, geo);
    } else {
      var i :| 0 <= i < |track| - 1 && Project(track, i, s1, geo).Some?
               && cand == InterpCandidate(Project(track, i, s1, geo).value);
      InterpolateSegmentWiderRadius(track[i], track[i + 1], lat, lon, r1, r2, geo);
      assert Project(track, i, s2, geo) == Project(track, i, s1, geo);
    }
  }

  /** Under every method, a wider radius never lowers the achieved category. */
  lemma CategoryMonotoneInRadius(track: seq<TrackPoint>, lat: real, lon: real, r1: real, r2: real, table: seq<Tier>,
                                 trigger: TriggerMethod, geo: DistanceOracle)
    requires r1 <= r2
    ensures Scanned(track, Site(lat, lon, r1), table, trigger, geo).category
         <= Scanned(track, Site(lat, lon, r2), table, trigger, geo).category
  {
    var s1, s2 := Site(lat, lon, r1), Site(lat, lon, r2);
    var c1 := Scanned(track, s1, table, trigger, geo).category;
    match trigger
    case Interpolated =>
      InterpolatedCategory(track, s1, table, geo);
      InterpolatedCategory(track, s2, table, geo);
      if c1 != 0 {
        var cand :| IsCandidate(cand, track, s1, geo) && Within(cand.dist, r1) && CandidateCategory(cand, table) == c1;
        CandidateSurvivesWiderRadius(track, lat, lon, r1, r2, geo, cand);
      }
    case MaxOutcome =>
      MaxOutcomeCategory(track, s1, table, geo);
      MaxOutcomeCategory(track, s2, table, geo);
      if c1 != 0 {
        var i :| 0 <= i < SegmentCount(track) && Hits(track, i, s1, geo) && SegmentCategory(track, i, table) == c1;
        InterpolateSegmentWiderRadius(track[i], track[i + 1], lat, lon, r1, r2, geo);
        assert Hits(track, i, s2, geo);
      }
    case Unrecognised =>
      UnrecognisedScansNothing(track, s1, table, geo);
      UnrecognisedScansNothing(track, s2, table, geo);
  }

  // ---------------------------------------------------------------------------
  // The payout ratio
  // ---------------------------------------------------------------------------

  /** A higher category never pays a smaller fraction (an assumption the source makes of its tables). */
  predicate PctNondecreasing(table: seq<Tier>)
  {
    forall t1, t2 :: t1 in table && t2 in table && t1.category <= t2.category ==> t1.pct <= t2.pct
  }

  /** No row pays a negative fraction. */
  predicate PctNonnegative(table: seq<Tier>)
  {
    forall tier :: tier in table ==> tier.pct >= 0.0
  }

  /**
   * On a table whose payouts do not decrease with the category, the exact
   * match wins nothing over the fallback: the ratio is the largest fraction
   * among rows at or below the category, or 0 when there is none.
   */
  lemma ResolvePayoutIsBestAtMost(table: seq<Tier>, c: int)
    requires PctNondecreasing(table)
    ensures forall tier :: tier in table && tier.category <= c ==> tier.pct <= ResolvePayout(table, c)
    ensures (forall tier :: tier in table ==> tier.category > c) ==> ResolvePayout(table, c) == 0.0
    ensures (exists tier :: tier in table && tier.category <= c) ==>
      exists tier :: tier in table && tier.category <= c && tier.pct == ResolvePayout(table, c)
  {
    var ratio := ResolvePayout(table, c);
    if exists tier :: tier in table && tier.category == c {
      var i :| 0 <= i < |table| && FirstMatchAt(table, c, ratio, i);
      assert table[i] in table;
    }
  }

  /** On a non-decreasing, non-negative table, a higher category never pays less. */
  lemma ResolvePayoutMonotone(table: seq<Tier>, c1: int, c2: int)
    requires PctNondecreasing(table) && PctNonnegative(table)
    requires c1 <= c2
    ensures ResolvePayout(table, c1) <= ResolvePayout(table, c2)
  {
    ResolvePayoutIsBestAtMost(table, c1);
    ResolvePayoutIsBestAtMost(table, c2);
    if exists tier :: tier in table && tier.category <= c2 {
      var t2 :| t2 in table && t2.category <= c2 && t2.pct == ResolvePayout(table, c2);
      assert ResolvePayout(table, c2) >= 0.0;
    }
  }

  /** When every row pays something, the location triggers exactly when the category reaches some row. */
  lemma TriggeredIffReachesTier(table: seq<Tier>, c: int)
    requires forall tier :: tier in table ==> tier.pct > 0.0
    ensures ResolvePayout(table, c) > 0.0 <==> exists tier :: tier in table && tier.category <= c
  {
    var ratio := ResolvePayout(table, c);
    if exists tier :: tier in table && tier.category == c {
      var i :| 0 <= i < |table| && FirstMatchAt(table, c, ratio, i);
      assert table[i] in table;
    } else if exists tier :: tier in table && tier.category < c {
      var tier :| tier in table && tier.category <= c && tier.pct == ratio;
    }
  }

  // ---------------------------------------------------------------------------
  // evaluate_payout_complex as a whole
  // ---------------------------------------------------------------------------

  /**
   * The evaluation fails exactly when a coordinate or the radius is missing;
   * otherwise it triggers exactly when the ratio is positive, and its category
   * is 0 or the category of a row of the table.
   */
  lemma EvaluateOutcome(track: seq<TrackPoint>, policy: Policy, trigger: TriggerMethod, geo: DistanceOracle)
    ensures var r := Evaluate(track, policy, trigger, geo);
      && (r.Failure? <==> policy.lat.None? || policy.lon.None? || policy.radius.None?)
      && (r.Failure? ==> r.error == MissingPolicyParameters)
    ensures var r := Evaluate(track, policy, trigger, geo);
      r.Success? ==>
        && r.value.category >= 0
        && (r.value.triggered <==> r.value.ratio > 0.0)
        && (r.value.category == 0 || exists tier :: tier in policy.table && tier.category == r.value.category)
  {
    if policy.lat.Some? && policy.lon.Some? && policy.radius.Some? {
      var site := Site(policy.lat.value, policy.lon.value, policy.radius.value);
      ScannedCategoryInTable(track, site, policy.table, trigger, geo);
    }
  }

  /**
   * An empty track, under every method: no error, category 0, infinite
   * minimum distance, and no payout unless the table has a row at category 0
   * or below.
   */
  lemma EmptyTrack(policy: Policy, trigger: TriggerMethod, geo: DistanceOracle)
    requires policy.lat.Some? && policy.lon.Some? && policy.radius.Some?
    ensures Evaluate([], policy, trigger, geo).Success?
    ensures var o := Evaluate([], policy, trigger, geo).value;
      o.category == 0 && o.minDist == Inf && o.ratio == ResolvePayout(policy.table, 0)
    ensures (forall tier :: tier in policy.table ==> tier.category > 0) ==> !Evaluate([], policy, trigger, geo).value.triggered
  {
    var site := Site(policy.lat.value, policy.lon.value, policy.radius.value);
    assert Queue([], site, trigger, geo) == [];
    assert Prescan([], site, policy.table, trigger, geo) == Scan(Inf, 0);
  }

  /**
   * A wider radius never lowers the payout or un-triggers a location, on a
   * table whose payouts are non-negative and do not decrease with the category.
   */
  lemma PayoutMonotoneInRadius(track: seq<TrackPoint>, lat: real, lon: real, r1: real, r2: real, table: seq<Tier>,
                               trigger: TriggerMethod, geo: DistanceOracle)
    requires r1 <= r2
    requires PctNondecreasing(table) && PctNonnegative(table)
    ensures var o1 := Evaluate(track, Policy(Some(lat), Some(lon), Some(r1), table), trigger, geo).value;
            var o2 := Evaluate(track, Policy(Some(lat), Some(lon), Some(r2), table), trigger, geo).value;
            o1.ratio <= o2.ratio && (o1.triggered ==> o2.triggered)
  {
    CategoryMonotoneInRadius(track, lat, lon, r1, r2, table, trigger, geo);
    ResolvePayoutMonotone(table, Scanned(track, Site(lat, lon, r1), table, trigger, geo).category,
                          Scanned(track, Site(lat, lon, r2), table, trigger, geo).category);
  }
}
