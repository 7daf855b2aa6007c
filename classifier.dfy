/**
 * The category classifier: resolves a (wind, pressure) reading to a category
 * through two independent scans of a payout table, one for wind and one for
 * pressure, and keeps the stronger of the two.
 */
module Classifier {
  import opened Basics

  /**
   * One row of a payout table. A threshold that is NaN in the table is `None`;
   * `pct` is the payout fraction paid at this category.
   */
  datatype Tier = Tier(category: int, minWind: Option<real>, maxPressure: Option<real>, pct: real)

  /** A single reading that one scan of the table compares against the thresholds. */
  datatype Reading = WindReading(wind: real) | PressureReading(pressure: real)

  /**
   * The row's threshold is met: wind at least `Min_Wind`, or pressure at most
   * `Max_Pressure` (lower pressure is a stronger storm). A missing threshold is
   * never met, as a comparison with NaN is false.
   */
  predicate Qualifies(r: Reading, tier: Tier)
  {
    match r
    case WindReading(w) => tier.minWind.Some? && w >= tier.minWind.value
    case PressureReading(p) => tier.maxPressure.Some? && p <= tier.maxPressure.value
  }

  /**
   * One scan of the table: starting from 0, every row whose threshold the
   * reading meets raises the running category to that row's category.
   */
  function PathCategory(r: Reading, table: seq<Tier>): (c: int)
    ensures c >= 0
    ensures forall tier :: tier in table && Qualifies(r, tier) ==> tier.category <= c
    ensures c == 0 || exists tier :: tier in table && Qualifies(r, tier) && tier.category == c
  {
    if |table| == 0 then 0
    else
      var prev := PathCategory(r, table[..|table| - 1]);
      var last := table[|table| - 1];
      assert table == table[..|table| - 1] + [last];
      if Qualifies(r, last) then Max(prev, last.category) else prev
  }

  /** The wind scan contributes when a wind reading is present. */
  predicate WindTriggers(wind: Option<real>, tier: Tier)
  {
    wind.Some? && Qualifies(WindReading(wind.value), tier)
  }

  /** The pressure scan contributes when a pressure reading is present and positive. */
  predicate PressureTriggers(pressure: Option<real>, tier: Tier)
  {
    pressure.Some? && pressure.value > 0.0 && Qualifies(PressureReading(pressure.value), tier)
  }

  /** The row is reached by the wind scan or by the pressure scan. */
  predicate Triggers(wind: Option<real>, pressure: Option<real>, tier: Tier)
  {
    WindTriggers(wind, tier) || PressureTriggers(pressure, tier)
  }

  /**
   * The category of a reading: the larger of the wind scan's and the pressure
   * scan's results. What this means is stated by `CategoryIsStrongestTriggered`.
   */
  function Category(wind: Option<real>, pressure: Option<real>, table: seq<Tier>): (c: int)
    ensures c >= 0
    ensures wind.None? && (pressure.None? || pressure.value <= 0.0) ==> c == 0
  {
    var catWind := if wind.Some? then PathCategory(WindReading(wind.value), table) else 0;
    var catPres := if pressure.Some? && pressure.value > 0.0
                   then PathCategory(PressureReading(pressure.value), table) else 0;
    Max(catWind, catPres)
  }

  /**
   * The category is the largest category among the rows the reading triggers,
   * or 0 when it triggers none (or only rows whose category is below 0).
   */
  lemma CategoryIsStrongestTriggered(wind: Option<real>, pressure: Option<real>, table: seq<Tier>)
    ensures Category(wind, pressure, table) >= 0
    ensures forall tier :: tier in table && Triggers(wind, pressure, tier) ==> tier.category <= Category(wind, pressure, table)
    ensures Category(wind, pressure, table) == 0
            || exists tier :: tier in table && Triggers(wind, pressure, tier) && tier.category == Category(wind, pressure, table)
  {
  }

  /** `determine_category`: two loops over the table, then the larger of the two results. */
  method DetermineCategory(wind: Option<real>, pressure: Option<real>, table: seq<Tier>) returns (cat: int)
    ensures cat == Category(wind, pressure, table)
  {
    var catWind := 0;
    var catPres := 0;
    if wind.Some? {
      for i := 0 to |table|
        invariant catWind == PathCategory(WindReading(wind.value), table[..i])
      {
        assert table[..i + 1][..i] == table[..i];
        var row := table[i];
        if row.minWind.Some? && wind.value >= row.minWind.value {
          catWind := Max(catWind, row.category);
        }
      }
      assert table[..|table|] == table;
    }
    if pressure.Some? && pressure.value > 0.0 {
      for i := 0 to |table|
        invariant catPres == PathCategory(PressureReading(pressure.value), table[..i])
      {
        assert table[..i + 1][..i] == table[..i];
        var row := table[i];
        if row.maxPressure.Some? && pressure.value <= row.maxPressure.value {
          catPres := Max(catPres, row.category);
        }
      }
      assert table[..|table|] == table;
    }
    cat := Max(catWind, catPres);
  }

  /** The category does not depend on the order (or repetition) of the table's rows. */
  lemma CategoryIgnoresRowOrder(wind: Option<real>, pressure: Option<real>, t1: seq<Tier>, t2: seq<Tier>)
    requires forall tier :: tier in t1 <==> tier in t2
    ensures Category(wind, pressure, t1) == Category(wind, pressure, t2)
  {
    CategoryIsStrongestTriggered(wind, pressure, t1);
    CategoryIsStrongestTriggered(wind, pressure, t2);
    var c1, c2 := Category(wind, pressure, t1), Category(wind, pressure, t2);
    if c1 != 0 {
      var tier :| tier in t1 && Triggers(wind, pressure, tier) && tier.category == c1;
      assert tier in t2;
    }
    if c2 != 0 {
      var tier :| tier in t2 && Triggers(wind, pressure, tier) && tier.category == c2;
      assert tier in t1;
    }
  }

  /** A stronger wind never lowers the category. */
  lemma CategoryMonotoneInWind(w1: real, w2: real, pressure: Option<real>, table: seq<Tier>)
    requires w1 <= w2
    ensures Category(Some(w1), pressure, table) <= Category(Some(w2), pressure, table)
  {
    CategoryIsStrongestTriggered(Some(w1), pressure, table);
    CategoryIsStrongestTriggered(Some(w2), pressure, table);
    var c1 := Category(Some(w1), pressure, table);
    if c1 != 0 {
      var tier :| tier in table && Triggers(Some(w1), pressure, tier) && tier.category == c1;
      assert Triggers(Some(w2), pressure, tier);
    }
  }

  /** A lower (positive) pressure never lowers the category. */
  lemma CategoryMonotoneInPressure(wind: Option<real>, p1: real, p2: real, table: seq<Tier>)
    requires 0.0 < p2 <= p1
    ensures Category(wind, Some(p1), table) <= Category(wind, Some(p2), table)
  {
    CategoryIsStrongestTriggered(wind, Some(p1), table);
    CategoryIsStrongestTriggered(wind, Some(p2), table);
    var c1 := Category(wind, Some(p1), table);
    if c1 != 0 {
      var tier :| tier in table && Triggers(wind, Some(p1), tier) && tier.category == c1;
      assert Triggers(wind, Some(p2), tier);
    }
  }
}
