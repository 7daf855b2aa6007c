/**
 * The single-location evaluator: scans a storm track against one insured
 * location under one of two trigger methods, tracks the achieved category and
 * the minimum distance, and resolves the payout ratio from the payout table.
 */
module Evaluator {
  import opened Basics
  import opened Geometry
  import opened Classifier

  /** The `trigger_method` argument; any other string is `Unrecognised`. */
  datatype TriggerMethod = Interpolated | MaxOutcome | Unrecognised

  /** The exceptions the engine raises: a location without coordinates or radius, and no profiles at all. */
  datatype EngineError = MissingPolicyParameters | NoPayoutProfiles

  /** The policy parameters of one location; a `None` coordinate or radius is a configuration error. */
  datatype Policy = Policy(lat: Option<real>, lon: Option<real>, radius: Option<real>, table: seq<Tier>)

  /** The location's coordinates and radius once all three are known to be present. */
  datatype Site = Site(lat: real, lon: real, radius: real)

  /** The evaluation result of one location. */
  datatype Outcome = Outcome(triggered: bool, ratio: real, category: int, minDist: Miles)

  /** A point queued for the final scan: its distance and its wind and pressure readings. */
  datatype Candidate = Candidate(dist: Miles, wind: Option<real>, pres: Option<real>)

  /** The running minimum distance and maximum category of a scan. */
  datatype Scan = Scan(minDist: Miles, category: int)

  /** The number of segments of a track: `len(track) - 1`, or none for an empty track. */
  function SegmentCount(track: seq<TrackPoint>): nat
  {
    if |track| == 0 then 0 else |track| - 1
  }

  /** The geodesic distance from the location to a raw track point. */
  function RawDistance(p: TrackPoint, site: Site, geo: DistanceOracle): Miles
  {
    geo(site.lat, site.lon, p.lat, p.lon)
  }

  /** The projection of the location onto segment `i`, when it falls inside the radius. */
  function Project(track: seq<TrackPoint>, i: nat, site: Site, geo: DistanceOracle): Option<InterpPoint>
    requires i + 1 < |track|
  {
    InterpolateSegment(track[i], track[i + 1], site.lat, site.lon, site.radius, geo)
  }

  /** A raw track point as a candidate, with its readings as recorded. */
  function RawCandidate(p: TrackPoint, site: Site, geo: DistanceOracle): Candidate
  {
    Candidate(RawDistance(p, site, geo), p.wind, p.pres)
  }

  /** An interpolated point as a candidate; its readings are always present. */
  function InterpCandidate(ip: InterpPoint): Candidate
  {
    Candidate(Fin(ip.dist), Some(ip.wind), Some(ip.pres))
  }

  /** The category of a candidate's readings. */
  function CandidateCategory(c: Candidate, table: seq<Tier>): int
  {
    Category(c.wind, c.pres, table)
  }

  // ---------------------------------------------------------------------------
  // The final scan over queued candidates (shared by both methods)
  // ---------------------------------------------------------------------------

  /** One step of the final scan: lower the minimum distance, and raise the category when inside the radius. */
  function Absorb(acc: Scan, c: Candidate, radius: real, table: seq<Tier>): Scan
  {
    var minDist := Nearer(acc.minDist, c.dist);
    if Within(c.dist, radius) then Scan(minDist, Max(acc.category, CandidateCategory(c, table)))
    else Scan(minDist, acc.category)
  }

  /** The final scan over `cs`, starting from `acc`. */
  function CandidateFold(acc: Scan, cs: seq<Candidate>, radius: real, table: seq<Tier>): Scan
  {
    if |cs| == 0 then acc
    else
      var last := cs[|cs| - 1];
      Absorb(CandidateFold(acc, cs[..|cs| - 1], radius, table), last, radius, table)
  }

  /**
   * The final scan ends at the least distance among the start and the
   * candidates, and at the largest category among the start and the in-radius
   * candidates.
   */
  lemma {:induction false} CandidateFoldBounds(acc: Scan, cs: seq<Candidate>, radius: real, table: seq<Tier>)
    ensures AtMost(CandidateFold(acc, cs, radius, table).minDist, acc.minDist)
    ensures forall c :: c in cs ==> AtMost(CandidateFold(acc, cs, radius, table).minDist, c.dist)
    ensures CandidateFold(acc, cs, radius, table).minDist == acc.minDist || exists c :: c in cs && CandidateFold(acc, cs, radius, table).minDist == c.dist
    ensures CandidateFold(acc, cs, radius, table).category >= acc.category
    ensures forall c :: c in cs && Within(c.dist, radius) ==> CandidateCategory(c, table) <= CandidateFold(acc, cs, radius, table).category
    ensures CandidateFold(acc, cs, radius, table).category == acc.category
         || exists c :: c in cs && Within(c.dist, radius) && CandidateCategory(c, table) == CandidateFold(acc, cs, radius, table).category
  {
    if |cs| > 0 {
      var last := cs[|cs| - 1];
      CandidateFoldBounds(acc, cs[..|cs| - 1], radius, table);
      assert cs == cs[..|cs| - 1] + [last];
    }
  }

  // ---------------------------------------------------------------------------
  // The `interpolated` method: the queue of points to check
  // ---------------------------------------------------------------------------

  /** What segment `i` adds to the queue: its in-radius projection (if any), then its first raw point. */
  function SegmentCandidates(track: seq<TrackPoint>, i: nat, site: Site, geo: DistanceOracle): seq<Candidate>
    requires i + 1 < |track|
  {
    (match Project(track, i, site, geo)
     case Some(ip) => [InterpCandidate(ip)]
     case None => [])
    + [RawCandidate(track[i], site, geo)]
  }

  /** The queue after the first `k` segments: exactly their first raw points and their in-radius projections. */
  function CandidatesBefore(track: seq<TrackPoint>, k: nat, site: Site, geo: DistanceOracle): seq<Candidate>
    requires k <= SegmentCount(track)
  {
    if k == 0 then []
    else CandidatesBefore(track, k - 1, site, geo) + SegmentCandidates(track, k - 1, site, geo)
  }

  /** Every first raw point and every in-radius projection of the first `k` segments is queued. */
  lemma {:induction false} CandidatesBeforeComplete(track: seq<TrackPoint>, k: nat, site: Site, geo: DistanceOracle)
    requires k <= SegmentCount(track)
    ensures forall i :: 0 <= i < k ==> RawCandidate(track[i], site, geo) in CandidatesBefore(track, k, site, geo)
    ensures forall i :: 0 <= i < k && Hits(track, i, site, geo) ==>
      InterpCandidate(Project(track, i, site, geo).value) in CandidatesBefore(track, k, site, geo)
  {
    if k > 0 {
      CandidatesBeforeComplete(track, k - 1, site, geo);
      var prev := CandidatesBefore(track, k - 1, site, geo);
      var seg := SegmentCandidates(track, k - 1, site, geo);
      var all := CandidatesBefore(track, k, site, geo);
      assert all == prev + seg;
      forall i | 0 <= i < k ensures RawCandidate(track[i], site, geo) in all {
        if i < k - 1 {
          assert RawCandidate(track[i], site, geo) in prev;
        } else {
          assert RawCandidate(track[i], site, geo) in seg;
        }
      }
      forall i | 0 <= i < k && Hits(track, i, site, geo)
        ensures InterpCandidate(Project(track, i, site, geo).value) in all
      {
        if i < k - 1 {
          assert InterpCandidate(Project(track, i, site, geo).value) in prev;
        } else {
          assert InterpCandidate(Project(track, i, site, geo).value) in seg;
        }
      }
    }
  }

  /** Everything queued by the first `k` segments is one of their first raw points or in-radius projections. */
  lemma {:induction false} CandidatesBeforeSound(track: seq<TrackPoint>, k: nat, site: Site, geo: DistanceOracle,
                                                 c: Candidate)
    requires k <= SegmentCount(track)
    requires c in CandidatesBefore(track, k, site, geo)
    ensures (exists i :: 0 <= i < k && c == RawCandidate(track[i], site, geo))
         || (exists i :: 0 <= i < k && Hits(track, i, site, geo) && c == InterpCandidate(Project(track, i, site, geo).value))
  {
    var prev := CandidatesBefore(track, k - 1, site, geo);
    var seg := SegmentCandidates(track, k - 1, site, geo);
    assert CandidatesBefore(track, k, site, geo) == prev + seg;
    if c in prev {
      CandidatesBeforeSound(track, k - 1, site, geo, c);
    } else if c == RawCandidate(track[k - 1], site, geo) {
    } else {
      assert Hits(track, k - 1, site, geo) && c == InterpCandidate(Project(track, k - 1, site, geo).value);
    }
  }

  /** The whole queue of the `interpolated` method: every segment's contribution, then the last raw point. */
  function PointsToCheck(track: seq<TrackPoint>, site: Site, geo: DistanceOracle): seq<Candidate>
  {
    if |track| == 0 then []
    else CandidatesBefore(track, |track| - 1, site, geo) + [RawCandidate(track[|track| - 1], site, geo)]
  }

  /** `c` is a raw track point or the in-radius projection of some segment. */
  predicate IsCandidate(c: Candidate, track: seq<TrackPoint>, site: Site, geo: DistanceOracle)
  {
    (exists i :: 0 <= i < |track| && c == RawCandidate(track[i], site, geo))
    || (exists i :: 0 <= i < |track| - 1 && Project(track, i, site, geo).Some?
                    && c == InterpCandidate(Project(track, i, site, geo).value))
  }

  /** The queue of the `interpolated` method holds exactly the raw points and the in-radius projections. */
  lemma PointsToCheckMembers(track: seq<TrackPoint>, site: Site, geo: DistanceOracle, c: Candidate)
    ensures c in PointsToCheck(track, site, geo) <==> IsCandidate(c, track, site, geo)
  {
    if |track| > 0 {
      var n := |track| - 1;
      var before := CandidatesBefore(track, n, site, geo);
      var last := RawCandidate(track[n], site, geo);
      assert PointsToCheck(track, site, geo) == before + [last];
      if c in before {
        CandidateIsCandidate(track, n, site, geo, c);
      }
      if IsCandidate(c, track, site, geo) && c != last {
        CandidateIsQueued(track, site, geo, c);
      }
    }
  }

  lemma CandidateIsCandidate(track: seq<TrackPoint>, k: nat, site: Site, geo: DistanceOracle, c: Candidate)
    requires k <= SegmentCount(track)
    requires c in CandidatesBefore(track, k, site, geo)
    ensures IsCandidate(c, track, site, geo)
  {
    CandidatesBeforeSound(track, k, site, geo, c);
  }

  lemma CandidateIsQueued(track: seq<TrackPoint>, site: Site, geo: DistanceOracle, c: Candidate)
    requires |track| > 0
    requires IsCandidate(c, track, site, geo)
    requires c != RawCandidate(track[|track| - 1], site, geo)
    ensures c in CandidatesBefore(track, |track| - 1, site, geo)
  {
    var n := |track| - 1;
    CandidatesBeforeComplete(track, n, site, geo);
    if i :| 0 <= i < |track| && c == RawCandidate(track[i], site, geo) {
      assert i < n;
    }
  }

  // ---------------------------------------------------------------------------
  // The `max_outcome` method: segment existence test, endpoint categories
  // ---------------------------------------------------------------------------

  /** The category of segment `i` under `max_outcome`: the larger of its two endpoints' categories. */
  function SegmentCategory(track: seq<TrackPoint>, i: nat, table: seq<Tier>): int
    requires i + 1 < |track|
  {
    Max(Category(track[i].wind, track[i].pres, table), Category(track[i + 1].wind, track[i + 1].pres, table))
  }

  /** The segment's projection falls inside the radius. */
  predicate Hits(track: seq<TrackPoint>, i: nat, site: Site, geo: DistanceOracle)
    requires i + 1 < |track|
  {
    Project(track, i, site, geo).Some?
  }

  /** One iteration of the `max_outcome` loop over segment `i`. */
  function MaxOutcomeStep(acc: Scan, track: seq<TrackPoint>, i: nat, site: Site, table: seq<Tier>,
                          geo: DistanceOracle): Scan
    requires i + 1 < |track|
  {
    var afterRaw := Nearer(acc.minDist, RawDistance(track[i], site, geo));
    match Project(track, i, site, geo)
    case None => Scan(afterRaw, acc.category)
    case Some(ip) => Scan(Nearer(afterRaw, Fin(ip.dist)), Max(acc.category, SegmentCategory(track, i, table)))
  }

  /**
   * The `max_outcome` loop after `k` segments: the category is the largest
   * segment category among hitting segments, or 0 if none hits.
   */
  function MaxOutcomeBefore(track: seq<TrackPoint>, k: nat, site: Site, table: seq<Tier>,
                            geo: DistanceOracle): Scan
    requires k <= SegmentCount(track)
  {
    if k == 0 then Scan(Inf, 0)
    else MaxOutcomeStep(MaxOutcomeBefore(track, k - 1, site, table, geo), track, k - 1, site, table, geo)
  }

  /** `c` is the largest segment category among the first `k` segments that hit the radius, or 0 if none does. */
  predicate IsMaxSegmentCategory(c: int, track: seq<TrackPoint>, k: nat, site: Site, table: seq<Tier>,
                                 geo: DistanceOracle)
    requires k <= SegmentCount(track)
  {
    && c >= 0
    && (forall i :: 0 <= i < k && Hits(track, i, site, geo) ==> SegmentCategory(track, i, table) <= c)
    && (c == 0 || exists i :: 0 <= i < k && Hits(track, i, site, geo) && SegmentCategory(track, i, table) == c)
  }

  /** The category of the `max_outcome` loop after `k` segments is the largest category of a hitting segment. */
  lemma MaxOutcomeBeforeCategory(track: seq<TrackPoint>, k: nat, site: Site, table: seq<Tier>, geo: DistanceOracle)
    requires k <= SegmentCount(track)
    ensures IsMaxSegmentCategory(MaxOutcomeBefore(track, k, site, table, geo).category, track, k, site, table, geo)
  {
    MaxOutcomeBeforeBounds(track, k, site, table, geo);
    MaxOutcomeBeforeAttained(track, k, site, table, geo);
  }

  /** The category after one more segment: raised to the segment's category when the segment hits. */
  lemma MaxOutcomeBeforeStep(track: seq<TrackPoint>, k: nat, site: Site, table: seq<Tier>, geo: DistanceOracle)
    requires 0 < k <= SegmentCount(track)
    ensures MaxOutcomeBefore(track, k, site, table, geo).category
         == if Hits(track, k - 1, site, geo)
            then Max(MaxOutcomeBefore(track, k - 1, site, table, geo).category, SegmentCategory(track, k - 1, table))
            else MaxOutcomeBefore(track, k - 1, site, table, geo).category
  {
    var prev := MaxOutcomeBefore(track, k - 1, site, table, geo);
    assert MaxOutcomeBefore(track, k, site, table, geo) == MaxOutcomeStep(prev, track, k - 1, site, table, geo);
  }

  /** The category after `k` segments is non-negative and at least every hitting segment's category. */
  lemma {:induction false} MaxOutcomeBeforeBounds(track: seq<TrackPoint>, k: nat, site: Site, table: seq<Tier>,
                                                  geo: DistanceOracle)
    requires k <= SegmentCount(track)
    ensures MaxOutcomeBefore(track, k, site, table, geo).category >= 0
    ensures forall i :: 0 <= i < k && Hits(track, i, site, geo) ==>
      SegmentCategory(track, i, table) <= MaxOutcomeBefore(track, k, site, table, geo).category
  {
    if k > 0 {
      MaxOutcomeBeforeBounds(track, k - 1, site, table, geo);
      MaxOutcomeBeforeStep(track, k, site, table, geo);
      var prev := MaxOutcomeBefore(track, k - 1, site, table, geo).category;
      var r := MaxOutcomeBefore(track, k, site, table, geo).category;
      var hit, seg := Hits(track, k - 1, site, geo), SegmentCategory(track, k - 1, table);
      assert prev <= r && (hit ==> seg <= r);
      forall i | 0 <= i < k && Hits(track, i, site, geo) ensures SegmentCategory(track, i, table) <= r {
        if i < k - 1 {
          assert SegmentCategory(track, i, table) <= prev;
        } else {
          assert i == k - 1;
        }
      }
    }
  }

  /** The category after `k` segments is 0 or the category of a hitting segment. */
  lemma {:induction false} MaxOutcomeBeforeAttained(track: seq<TrackPoint>, k: nat, site: Site, table: seq<Tier>,
                                                    geo: DistanceOracle)
    requires k <= SegmentCount(track)
    ensures var r := MaxOutcomeBefore(track, k, site, table, geo).category;
      r == 0 || exists i :: 0 <= i < k && Hits(track, i, site, geo) && SegmentCategory(track, i, table) == r
  {
    if k > 0 {
      MaxOutcomeBeforeAttained(track, k - 1, site, table, geo);
      MaxOutcomeBeforeStep(track, k, site, table, geo);
      var prev := MaxOutcomeBefore(track, k - 1, site, table, geo).category;
      var r := MaxOutcomeBefore(track, k, site, table, geo).category;
      if r != 0 && r == prev {
        var i :| 0 <= i < k - 1 && Hits(track, i, site, geo) && SegmentCategory(track, i, table) == prev;
        assert 0 <= i < k;
      }
    }
  }

  /** The distance is a raw distance of one of the first `k` points or the projection distance of one of the first `k` segments. */
  predicate ObservedBefore(d: Miles, track: seq<TrackPoint>, k: nat, site: Site, geo: DistanceOracle)
    requires k <= SegmentCount(track)
  {
    (exists i :: 0 <= i < k && d == RawDistance(track[i], site, geo))
    || (exists i :: 0 <= i < k && Hits(track, i, site, geo) && d == Fin(Project(track, i, site, geo).value.dist))
  }

  /** `d` is at most every distance the first `k` segments of the `max_outcome` loop look at. */
  predicate BelowAllBefore(d: Miles, track: seq<TrackPoint>, k: nat, site: Site, geo: DistanceOracle)
    requires k <= SegmentCount(track)
  {
    && (forall i :: 0 <= i < k ==> AtMost(d, RawDistance(track[i], site, geo)))
    && (forall i :: 0 <= i < k && Hits(track, i, site, geo) ==> AtMost(d, Fin(Project(track, i, site, geo).value.dist)))
  }

  /**
   * The minimum distance of the `max_outcome` loop after `k` segments is the
   * least of the raw distances of their first points and of their in-radius
   * projection distances (infinity before any segment).
   */
  lemma {:induction false} MaxOutcomeBeforeMinDist(track: seq<TrackPoint>, k: nat, site: Site, table: seq<Tier>,
                                                  geo: DistanceOracle)
    requires k <= SegmentCount(track)
    ensures var r := MaxOutcomeBefore(track, k, site, table, geo);
      && BelowAllBefore(r.minDist, track, k, site, geo)
      && (k == 0 ==> r.minDist == Inf)
      && (k > 0 ==> ObservedBefore(r.minDist, track, k, site, geo))
  {
    if k > 0 {
      MaxOutcomeBeforeMinDist(track, k - 1, site, table, geo);
      var prev := MaxOutcomeBefore(track, k - 1, site, table, geo);
      var r := MaxOutcomeBefore(track, k, site, table, geo);
      var raw := RawDistance(track[k - 1], site, geo);
      var afterRaw := Nearer(prev.minDist, raw);
      assert r == MaxOutcomeStep(prev, track, k - 1, site, table, geo);
      assert AtMost(r.minDist, afterRaw);
      forall i | 0 <= i < k ensures AtMost(r.minDist, RawDistance(track[i], site, geo)) {
        if i < k - 1 {
          assert AtMost(prev.minDist, RawDistance(track[i], site, geo));
        }
      }
      forall i | 0 <= i < k && Hits(track, i, site, geo)
        ensures AtMost(r.minDist, Fin(Project(track, i, site, geo).value.dist))
      {
        if i < k - 1 {
          assert AtMost(prev.minDist, Fin(Project(track, i, site, geo).value.dist));
        }
      }
      if r.minDist == raw {
        assert ObservedBefore(r.minDist, track, k, site, geo);
      } else if Hits(track, k - 1, site, geo) && r.minDist == Fin(Project(track, k - 1, site, geo).value.dist) {
        assert ObservedBefore(r.minDist, track, k, site, geo);
      } else {
        assert r.minDist == prev.minDist;
        assert k - 1 > 0;
        assert ObservedBefore(prev.minDist, track, k - 1, site, geo);
      }
    }
  }

  /** The whole `max_outcome` scan: every segment, then the last raw point's distance. */
  function MaxOutcomeScan(track: seq<TrackPoint>, site: Site, table: seq<Tier>, geo: DistanceOracle): Scan
  {
    if |track| == 0 then Scan(Inf, 0)
    else
      var s := MaxOutcomeBefore(track, |track| - 1, site, table, geo);
      Scan(Nearer(s.minDist, RawDistance(track[|track| - 1], site, geo)), s.category)
  }

  // ---------------------------------------------------------------------------
  // Both methods together
  // ---------------------------------------------------------------------------

  /** The state before the final scan: the `max_outcome` loop's result, or nothing yet. */
  function Prescan(track: seq<TrackPoint>, site: Site, table: seq<Tier>, trigger: TriggerMethod,
                   geo: DistanceOracle): Scan
  {
    if trigger == MaxOutcome then MaxOutcomeScan(track, site, table, geo) else Scan(Inf, 0)
  }

  /** The queue of the final scan: only the `interpolated` method fills it. */
  function Queue(track: seq<TrackPoint>, site: Site, trigger: TriggerMethod, geo: DistanceOracle): seq<Candidate>
  {
    if trigger == Interpolated then PointsToCheck(track, site, geo) else []
  }

  /** The achieved category and minimum distance of a location under a trigger method. */
  function Scanned(track: seq<TrackPoint>, site: Site, table: seq<Tier>, trigger: TriggerMethod,
                   geo: DistanceOracle): Scan
  {
    CandidateFold(Prescan(track, site, table, trigger, geo), Queue(track, site, trigger, geo), site.radius, table)
  }

  // ---------------------------------------------------------------------------
  // Payout resolution
  // ---------------------------------------------------------------------------

  /** Row `i` is the first row whose category is `c`, and its `Payout_Pct` is `pct`. */
  predicate FirstMatchAt(table: seq<Tier>, c: int, pct: real, i: int)
  {
    0 <= i < |table| && table[i].category == c && table[i].pct == pct
    && forall j :: 0 <= j < i ==> table[j].category != c
  }

  /** `pct` is the `Payout_Pct` of the first row whose category is `c`. */
  predicate IsFirstMatch(table: seq<Tier>, c: int, pct: real)
  {
    exists i :: 0 <= i < |table| && FirstMatchAt(table, c, pct, i)
  }

  /** `Payout_Pct` of the first row whose category is exactly `c`, if any. */
  function FirstExactPct(table: seq<Tier>, c: int): (r: Option<real>)
    ensures r.None? <==> forall tier :: tier in table ==> tier.category != c
    ensures r.Some? ==> IsFirstMatch(table, c, r.value)
  {
    if |table| == 0 then None
    else if table[0].category == c then assert FirstMatchAt(table, c, table[0].pct, 0); Some(table[0].pct)
    else
      var rest := FirstExactPct(table[1..], c);
      assert table == [table[0]] + table[1..];
      FirstMatchShift(table, c, rest);
      rest
  }

  /** A first match in the tail of the table, after a non-matching head, is a first match in the table. */
  lemma FirstMatchShift(table: seq<Tier>, c: int, rest: Option<real>)
    requires |table| > 0 && table[0].category != c
    requires rest.Some? ==> IsFirstMatch(table[1..], c, rest.value)
    ensures rest.Some? ==> IsFirstMatch(table, c, rest.value)
  {
    if rest.Some? {
      var tail := table[1..];
      var i :| 0 <= i < |tail| && FirstMatchAt(tail, c, rest.value, i);
      assert table[i + 1] == tail[i];
      forall j | 0 <= j < i + 1 ensures table[j].category != c {
        if j > 0 { assert table[j] == tail[j - 1]; }
      }
      assert FirstMatchAt(table, c, rest.value, i + 1);
    }
  }

  /** The largest `Payout_Pct` among rows whose category is at most `c`, if any. */
  function BestPctAtMost(table: seq<Tier>, c: int): (r: Option<real>)
    ensures r.None? <==> forall tier :: tier in table ==> tier.category > c
    ensures r.Some? ==> forall tier :: tier in table && tier.category <= c ==> tier.pct <= r.value
    ensures r.Some? ==> exists tier :: tier in table && tier.category <= c && tier.pct == r.value
  {
    if |table| == 0 then None
    else
      var rest := BestPctAtMost(table[1..], c);
      assert table == [table[0]] + table[1..];
      if table[0].category <= c then
        (match rest
         case None => Some(table[0].pct)
         case Some(p) => Some(MaxReal(table[0].pct, p)))
      else rest
  }

  /**
   * The payout ratio of an achieved category: the first exact match's
   * `Payout_Pct`; otherwise the largest `Payout_Pct` among rows at or below the
   * category; otherwise 0.
   */
  function ResolvePayout(table: seq<Tier>, c: int): (ratio: real)
    ensures ratio == 0.0 || exists tier :: tier in table && tier.pct == ratio
  {
    match FirstExactPct(table, c)
    case Some(p) => p
    case None =>
      match BestPctAtMost(table, c)
      case Some(p) => p
      case None => 0.0
  }

  /**
   * The payout fraction of a category: the first row with exactly that
   * category, else the best rate among the rows below it, else nothing.
   */
  lemma ResolvePayoutMeaning(table: seq<Tier>, c: int)
    ensures (exists tier :: tier in table && tier.category == c) ==> IsFirstMatch(table, c, ResolvePayout(table, c))
    ensures (forall tier :: tier in table ==> tier.category != c) && (exists tier :: tier in table && tier.category < c) ==>
      && (forall tier :: tier in table && tier.category <= c ==> tier.pct <= ResolvePayout(table, c))
      && (exists tier :: tier in table && tier.category <= c && tier.pct == ResolvePayout(table, c))
    ensures (forall tier :: tier in table ==> tier.category > c) ==> ResolvePayout(table, c) == 0.0
  {
  }

  // ---------------------------------------------------------------------------
  // evaluate_payout_complex
  // ---------------------------------------------------------------------------

  /** The result of evaluating one location against a track. */
  function Evaluate(track: seq<TrackPoint>, policy: Policy, trigger: TriggerMethod, geo: DistanceOracle)
    : (r: Result<Outcome, EngineError>)
    ensures r.Failure? <==> policy.lat.None? || policy.lon.None? || policy.radius.None?
    ensures r.Failure? ==> r.error == MissingPolicyParameters
  {
    if policy.lat.None? || policy.lon.None? || policy.radius.None? then Failure(MissingPolicyParameters)
    else
      var site := Site(policy.lat.value, policy.lon.value, policy.radius.value);
      var s := Scanned(track, site, policy.table, trigger, geo);
      var ratio := ResolvePayout(policy.table, s.category);
      Success(Outcome(ratio > 0.0, ratio, s.category, s.minDist))
  }

  /** The `interpolated` loop: queue each segment's in-radius projection and first raw point, then the last raw point. */
  method CollectPoints(track: seq<TrackPoint>, site: Site, geo: DistanceOracle) returns (points: seq<Candidate>)
    ensures points == PointsToCheck(track, site, geo)
  {
    points := [];
    var i := 0;
    while i < |track| - 1
      invariant 0 <= i <= SegmentCount(track)
      invariant points == CandidatesBefore(track, i, site, geo)
    {
      var interp := InterpolateSegment(track[i], track[i + 1], site.lat, site.lon, site.radius, geo);
      if interp.Some? {
        points := points + [InterpCandidate(interp.value)];
      }
      var d := geo(site.lat, site.lon, track[i].lat, track[i].lon);
      points := points + [Candidate(d, track[i].wind, track[i].pres)];
      i := i + 1;
    }
    if |track| > 0 {
      var last := track[|track| - 1];
      var dLast := geo(site.lat, site.lon, last.lat, last.lon);
      points := points + [Candidate(dLast, last.wind, last.pres)];
    }
  }

  /** One iteration of the `max_outcome` loop: segment `i`'s first point, then its in-radius projection. */
  method ScanSegment(acc: Scan, track: seq<TrackPoint>, i: nat, site: Site, table: seq<Tier>, geo: DistanceOracle)
    returns (next: Scan)
    requires i + 1 < |track|
    ensures next == MaxOutcomeStep(acc, track, i, site, table, geo)
  {
    var minDist, maxCat := acc.minDist, acc.category;
    var interp := InterpolateSegment(track[i], track[i + 1], site.lat, site.lon, site.radius, geo);
    var d1 := geo(site.lat, site.lon, track[i].lat, track[i].lon);
    if Less(d1, minDist) {
      minDist := d1;
    }
    if interp.Some? {
      if Less(Fin(interp.value.dist), minDist) {
        minDist := Fin(interp.value.dist);
      }
      var cat1 := DetermineCategory(track[i].wind, track[i].pres, table);
      var cat2 := DetermineCategory(track[i + 1].wind, track[i + 1].pres, table);
      var segCat := Max(cat1, cat2);
      if segCat > maxCat {
        maxCat := segCat;
      }
    }
    next := Scan(minDist, maxCat);
  }

  /**
   * The `max_outcome` loop: every segment lowers the minimum distance with its
   * first raw point and, when its projection is inside the radius, with the
   * projection, and raises the category to the segment's category; then the
   * last raw point lowers the minimum distance.
   */
  method ScanSegments(track: seq<TrackPoint>, site: Site, table: seq<Tier>, geo: DistanceOracle) returns (s: Scan)
    ensures s == MaxOutcomeScan(track, site, table, geo)
  {
    s := Scan(Inf, 0);
    var i := 0;
    while i < |track| - 1
      invariant 0 <= i <= SegmentCount(track)
      invariant s == MaxOutcomeBefore(track, i, site, table, geo)
    {
      s := ScanSegment(s, track, i, site, table, geo);
      i := i + 1;
    }
    if |track| > 0 {
      var last := track[|track| - 1];
      var dLast := geo(site.lat, site.lon, last.lat, last.lon);
      if Less(dLast, s.minDist) {
        s := Scan(dLast, s.category);
      }
    }
  }

  /** The final loop over the queued points, continuing from `start`. */
  method ScanPoints(start: Scan, points: seq<Candidate>, radius: real, table: seq<Tier>) returns (s: Scan)
    ensures s == CandidateFold(start, points, radius, table)
  {
    var minDist := start.minDist;
    var maxCat := start.category;
    for j := 0 to |points|
      invariant Scan(minDist, maxCat) == CandidateFold(start, points[..j], radius, table)
    {
      assert points[..j + 1][..j] == points[..j];
      var pt := points[j];
      if Less(pt.dist, minDist) {
        minDist := pt.dist;
      }
      if Within(pt.dist, radius) {
        var cat := DetermineCategory(pt.wind, pt.pres, table);
        if cat > maxCat {
          maxCat := cat;
        }
      }
    }
    assert points[..|points|] == points;
    s := Scan(minDist, maxCat);
  }

  /** `evaluate_payout_complex`: the scanning loop of the chosen method, the final loop, then the payout. */
  method EvaluatePayout(track: seq<TrackPoint>, policy: Policy, trigger: TriggerMethod, geo: DistanceOracle)
    returns (r: Result<Outcome, EngineError>)
    ensures r == Evaluate(track, policy, trigger, geo)
  {
    if policy.lat.None? || policy.lon.None? || policy.radius.None? {
      return Failure(MissingPolicyParameters);
    }
    var site := Site(policy.lat.value, policy.lon.value, policy.radius.value);
    var table := policy.table;
    var start := Scan(Inf, 0);
    var points: seq<Candidate> := [];
    if trigger == Interpolated {
      points := CollectPoints(track, site, geo);
    } else if trigger == MaxOutcome {
      start := ScanSegments(track, site, table, geo);
    }
    var s := ScanPoints(start, points, site.radius, table);
    var ratio := ResolvePayout(table, s.category);
    r := Success(Outcome(ratio > 0.0, ratio, s.category, s.minDist));
  }
}
