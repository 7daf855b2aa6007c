/**
 * The portfolio evaluator: resolves each location's payout profile, evaluates
 * the location, pays ratio × sublimit for each triggered location, and caps
 * the sum at the aggregate limit.
 */
module Portfolio {
  import opened Basics
  import opened Geometry
  import opened Classifier
  import opened Evaluator

  /** A named payout table. */
  datatype Profile = Profile(name: string, table: seq<Tier>)

  /**
   * An insured location. `profile` is its `Profile_Name`, already defaulted to
   * `"Default"` when the record has none.
   */
  datatype Location = Location(name: string, lat: Option<real>, lon: Option<real>, radius: Option<real>,
                               sublimit: real, profile: string)

  /** One row of the location breakdown. */
  datatype Detail = Detail(location: string, triggered: bool, payout: real, category: int, minDist: Miles)

  /** The result of a portfolio evaluation. */
  datatype PortfolioOutcome = PortfolioOutcome(triggered: bool, total: real, uncapped: real, breakdown: seq<Detail>)

  /** The name of the fallback profile. */
  const DefaultProfile: string := "Default"

  // ---------------------------------------------------------------------------
  // Profile resolution
  // ---------------------------------------------------------------------------

  /** The table stored under `name`, if any (the profiles are a dictionary keyed by name). */
  function Lookup(profiles: seq<Profile>, name: string): (r: Option<seq<Tier>>)
    ensures r.None? <==> forall p :: p in profiles ==> p.name != name
    ensures r.Some? ==> Profile(name, r.value) in profiles
  {
    if |profiles| == 0 then None
    else if profiles[0].name == name then Some(profiles[0].table)
    else Lookup(profiles[1..], name)
  }

  /**
   * The table a location uses: its named profile, else the `"Default"`
   * profile, else the first profile; with no profiles at all the lookup fails.
   */
  function ResolveProfile(profiles: seq<Profile>, name: string): (r: Result<seq<Tier>, EngineError>)
    ensures r.Failure? <==> |profiles| == 0
    ensures r.Failure? ==> r.error == NoPayoutProfiles
    ensures r.Success? ==> exists p :: p in profiles && p.table == r.value
    ensures (exists p :: p in profiles && p.name == name) ==> r.Success? && Profile(name, r.value) in profiles
    ensures (forall p :: p in profiles ==> p.name != name) && (exists p :: p in profiles && p.name == DefaultProfile) ==>
      r.Success? && Profile(DefaultProfile, r.value) in profiles
    ensures (forall p :: p in profiles ==> p.name != name && p.name != DefaultProfile) && |profiles| > 0 ==>
      r == Success(profiles[0].table)
  {
    match Lookup(profiles, name)
    case Some(table) => Success(table)
    case None =>
      match Lookup(profiles, DefaultProfile)
      case Some(table) => Success(table)
      case None => if |profiles| == 0 then Failure(NoPayoutProfiles) else Success(profiles[0].table)
  }

  // ---------------------------------------------------------------------------
  // The portfolio as functions
  // ---------------------------------------------------------------------------

  /** The payout of one location: ratio × sublimit when it triggers, and nothing otherwise. */
  function LocationPayout(o: Outcome, loc: Location): real
  {
    if o.triggered then o.ratio * loc.sublimit else 0.0
  }

  /** The breakdown row of one location, or the error its profile resolution or evaluation raises. */
  function LocationResult(track: seq<TrackPoint>, loc: Location, profiles: seq<Profile>, trigger: TriggerMethod,
                          geo: DistanceOracle): (r: Result<Detail, EngineError>)
    ensures r.Success? ==> r.value.location == loc.name
  {
    match ResolveProfile(profiles, loc.profile)
    case Failure(e) => Failure(e)
    case Success(table) =>
      match Evaluate(track, Policy(loc.lat, loc.lon, loc.radius, table), trigger, geo)
      case Failure(e) => Failure(e)
      case Success(o) => Success(Detail(loc.name, o.triggered, LocationPayout(o, loc), o.category, o.minDist))
  }

  /** The result of every location, in order. */
  function LocationResults(track: seq<TrackPoint>, locs: seq<Location>, profiles: seq<Profile>, trigger: TriggerMethod,
                           geo: DistanceOracle): (rs: seq<Result<Detail, EngineError>>)
    ensures |rs| == |locs|
    ensures forall i :: 0 <= i < |locs| ==> rs[i] == LocationResult(track, locs[i], profiles, trigger, geo)
  {
    seq(|locs|, i requires 0 <= i < |locs| => LocationResult(track, locs[i], profiles, trigger, geo))
  }

  /** Result `i` is the first failure, and it raises `e`. */
  predicate FirstFailureAt<T>(rs: seq<Result<T, EngineError>>, i: int, e: EngineError)
  {
    && 0 <= i < |rs|
    && rs[i] == Failure(e)
    && forall j :: 0 <= j < i ==> rs[j].Success?
  }

  /**
   * The loop's outcome over the results of the locations, in order: every
   * row when all succeed, else the error of the first failure, which aborts
   * the whole portfolio.
   */
  function Collect<T>(rs: seq<Result<T, EngineError>>): (r: Result<seq<T>, EngineError>)
    ensures r.Success? ==> |r.value| == |rs|
    ensures r.Success? ==> forall i :: 0 <= i < |rs| ==> rs[i] == Success(r.value[i])
    ensures r.Failure? ==> exists i :: FirstFailureAt(rs, i, r.error)
  {
    if |rs| == 0 then Success([])
    else
      var init := rs[..|rs| - 1];
      match Collect(init)
      case Failure(e) =>
        var i :| FirstFailureAt(init, i, e);
        assert FirstFailureAt(rs, i, e);
        Failure(e)
      case Success(ds) =>
        match rs[|rs| - 1]
        case Failure(e) =>
          assert FirstFailureAt(rs, |rs| - 1, e);
          Failure(e)
        case Success(d) => Success(ds + [d])
  }

  /** The breakdown of the locations, in order, or the error of the first location that raises. */
  function Breakdown(track: seq<TrackPoint>, locs: seq<Location>, profiles: seq<Profile>, trigger: TriggerMethod,
                     geo: DistanceOracle): Result<seq<Detail>, EngineError>
  {
    Collect(LocationResults(track, locs, profiles, trigger, geo))
  }

  /** The sum of the payouts of the breakdown rows. */
  function SumPayouts(ds: seq<Detail>): real
  {
    if |ds| == 0 then 0.0 else SumPayouts(ds[..|ds| - 1]) + ds[|ds| - 1].payout
  }

  /** Some location of the breakdown triggered. */
  predicate AnyTriggered(ds: seq<Detail>)
  {
    exists i :: 0 <= i < |ds| && ds[i].triggered
  }

  /** `evaluate_portfolio_complex` as a function of its inputs. */
  function EvaluatedPortfolio(track: seq<TrackPoint>, locs: seq<Location>, limit: real, profiles: seq<Profile>,
                     trigger: TriggerMethod, geo: DistanceOracle): (r: Result<PortfolioOutcome, EngineError>)
    ensures r.Success? ==> |r.value.breakdown| == |locs|
    ensures r.Success? ==> r.value.total <= limit && r.value.total <= r.value.uncapped
    ensures r.Success? ==> r.value.uncapped == SumPayouts(r.value.breakdown)
  {
    match Breakdown(track, locs, profiles, trigger, geo)
    case Failure(e) => Failure(e)
    case Success(ds) =>
      var uncapped := SumPayouts(ds);
      Success(PortfolioOutcome(AnyTriggered(ds), MinReal(uncapped, limit), uncapped, ds))
  }

  // ---------------------------------------------------------------------------
  // The portfolio loop
  // ---------------------------------------------------------------------------

  /** The body of the portfolio loop for one location: resolve its profile, evaluate it, and price its payout. */
  method EvaluateLocation(track: seq<TrackPoint>, loc: Location, profiles: seq<Profile>, trigger: TriggerMethod,
                          geo: DistanceOracle) returns (r: Result<Detail, EngineError>)
    ensures r == LocationResult(track, loc, profiles, trigger, geo)
  {
    var resolved := ResolveProfile(profiles, loc.profile);
    if resolved.Failure? {
      return Failure(resolved.error);
    }
    var res := EvaluatePayout(track, Policy(loc.lat, loc.lon, loc.radius, resolved.value), trigger, geo);
    if res.Failure? {
      return Failure(res.error);
    }
    var locPayout := LocationPayout(res.value, loc);
    r := Success(Detail(loc.name, res.value.triggered, locPayout, res.value.category, res.value.minDist));
  }

  /** `evaluate_portfolio_complex`: one pass over the locations accumulating the total, the breakdown and the flag. */
  method EvaluatePortfolio(track: seq<TrackPoint>, locs: seq<Location>, limit: real, profiles: seq<Profile>,
                           trigger: TriggerMethod, geo: DistanceOracle) returns (r: Result<PortfolioOutcome, EngineError>)
    ensures r == EvaluatedPortfolio(track, locs, limit, profiles, trigger, geo)
  {
    ghost var rs := LocationResults(track, locs, profiles, trigger, geo);
    var total := 0.0;
    var details: seq<Detail> := [];
    var triggeredAny := false;
    for k := 0 to |locs|
      invariant Collect(rs[..k]) == Success(details)
      invariant total == SumPayouts(details)
      invariant triggeredAny == AnyTriggered(details)
    {
      var res := EvaluateLocation(track, locs[k], profiles, trigger, geo);
      if res.Failure? {
        CollectStopsAt(rs, k);
        return Failure(res.error);
      }
      var d := res.value;
      CollectExtends(rs, k, details, d);
      if d.triggered {
        triggeredAny := true;
      }
      RowsExtend(details, d);
      details := details + [d];
      total := total + d.payout;
    }
    assert rs[..|locs|] == rs;
    r := Success(PortfolioOutcome(triggeredAny, MinReal(total, limit), total, details));
  }

  /** Appending a row adds its payout to the sum and its flag to the trigger-any test. */
  lemma RowsExtend(ds: seq<Detail>, d: Detail)
    ensures SumPayouts(ds + [d]) == SumPayouts(ds) + d.payout
    ensures AnyTriggered(ds + [d]) <==> AnyTriggered(ds) || d.triggered
  {
    var all := ds + [d];
    assert all[..|ds|] == ds;
    assert all[|ds|] == d;
    if AnyTriggered(ds) {
      var i :| 0 <= i < |ds| && ds[i].triggered;
      assert all[i] == ds[i];
    }
    if AnyTriggered(all) {
      var i :| 0 <= i < |all| && all[i].triggered;
      if i < |ds| {
        assert all[i] == ds[i];
      }
    }
  }

  /** A success after a successful prefix extends the collected rows by one. */
  lemma CollectExtends<T>(rs: seq<Result<T, EngineError>>, k: int, ds: seq<T>, d: T)
    requires 0 <= k < |rs|
    requires Collect(rs[..k]) == Success(ds)
    requires rs[k] == Success(d)
    ensures Collect(rs[..k + 1]) == Success(ds + [d])
  {
    assert rs[..k + 1][..k] == rs[..k];
  }

  /** When every result before `k` succeeds and result `k` fails, the whole collection fails with that error. */
  lemma CollectStopsAt<T>(rs: seq<Result<T, EngineError>>, k: int)
    requires 0 <= k < |rs|
    requires Collect(rs[..k]).Success?
    requires rs[k].Failure?
    ensures Collect(rs) == Failure(rs[k].error)
  {
    forall j | 0 <= j < k ensures rs[j].Success? {
      assert rs[..k][j] == rs[j];
    }
    var r := Collect(rs);
    if r.Failure? {
      var i :| FirstFailureAt(rs, i, r.error);
    }
  }
}
