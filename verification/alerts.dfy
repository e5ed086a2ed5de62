/** The alert section: one line per selected city, either "no data" or the
    band of the city's latest AQI reading. */
module Alerts {
  import opened Data
  import Aggregates

  datatype Level = Good | Moderate | Poor | Severe

  /** The bands in increasing order of severity. */
  function Severity(l: Level): nat {
    match l
    case Good => 0
    case Moderate => 1
    case Poor => 2
    case Severe => 3
  }

  /** Python's `x <= bound` on a float that may be NaN: NaN compares false. */
  predicate AtMost(aqi: Option<real>, bound: real) {
    aqi.Some? && aqi.value <= bound
  }

  /** The if/elif ladder: the first bound the reading does not exceed names
      its band, and a NaN reading passes no test and ends in `Severe`. */
  function Classify(aqi: Option<real>): (l: Level)
    ensures l == Good <==> aqi.Some? && aqi.value <= 50.0
    ensures l == Moderate <==> aqi.Some? && 50.0 < aqi.value <= 100.0
    ensures l == Poor <==> aqi.Some? && 100.0 < aqi.value <= 200.0
    ensures l == Severe <==> aqi.None? || 200.0 < aqi.value
  {
    if AtMost(aqi, 50.0) then Good
    else if AtMost(aqi, 100.0) then Moderate
    else if AtMost(aqi, 200.0) then Poor
    else Severe
  }

  /** A higher reading never gets a less severe band. */
  lemma ClassifyMonotone(x: real, y: real)
    requires x <= y
    ensures Severity(Classify(Some(x))) <= Severity(Classify(Some(y)))
  {
  }

  /** A NaN reading gets the most severe band there is. */
  lemma MissingReadingIsSevere(aqi: Option<real>)
    ensures Classify(None) == Severe
    ensures Severity(Classify(aqi)) <= Severity(Classify(None))
  {
  }

  datatype Alert = NoData(city: City) | Banner(city: City, level: Level)

  /** Some row of city `c` in the view has an AQI value. */
  predicate HasReading(view: seq<Row>, c: City) {
    exists i :: 0 <= i < |view| && view[i].city == c && view[i].aqi.Some?
  }

  /** Row `i` is the last row of the view that belongs to city `c`. */
  predicate IsLastOf(view: seq<Row>, c: City, i: int) {
    0 <= i < |view| && view[i].city == c && forall j :: i < j < |view| ==> view[j].city != c
  }

  /** The alert line of one selected city. It names the city, and a banner
      only ever reads the last row of a city that has rows. */
  function AlertFor(view: seq<Row>, hasAqi: bool, c: City): (a: Alert)
    ensures a.city == c
    ensures !hasAqi ==> a.NoData?
    ensures a.Banner? ==> |Aggregates.CityRows(view, c)| > 0
  {
    var cityData := Aggregates.CityRows(view, c);
    if hasAqi && |Aggregates.Values(cityData)| > 0 then
      Banner(c, Classify(cityData[|cityData| - 1].aqi))
    else
      NoData(c)
  }

  /** The last of a city's rows is the last row of the view with that city. */
  lemma {:induction false} LastCityRow(view: seq<Row>, c: City) returns (i: nat)
    requires |Aggregates.CityRows(view, c)| > 0
    ensures IsLastOf(view, c, i)
    ensures Aggregates.CityRows(view, c)[|Aggregates.CityRows(view, c)| - 1] == view[i]
  {
    var n := |view|;
    var init := view[..n - 1];
    var rs := Aggregates.CityRows(view, c);
    if view[n - 1].city == c {
      assert rs == Aggregates.CityRows(init, c) + [view[n - 1]];
      i := n - 1;
    } else {
      assert rs == Aggregates.CityRows(init, c);
      i := LastCityRow(init, c);
      assert init[i] == view[i];
      forall j | i < j < n ensures view[j].city != c {
        if j < n - 1 {
          assert init[j] == view[j];
        }
      }
    }
  }

  /** A city's line says "no data" exactly when the view has no `AQI` column
      or none of the city's rows has a value; otherwise its band is that of
      the AQI on the city's last row, which in a date-ordered view carries
      the city's latest date. */
  lemma AlertReflectsLatestRow(view: seq<Row>, hasAqi: bool, c: City)
    ensures AlertFor(view, hasAqi, c).city == c
    ensures AlertFor(view, hasAqi, c).NoData? <==> !hasAqi || !HasReading(view, c)
    ensures AlertFor(view, hasAqi, c).Banner? ==>
      exists i :: IsLastOf(view, c, i) && AlertFor(view, hasAqi, c).level == Classify(view[i].aqi)
    ensures AlertFor(view, hasAqi, c).Banner? && SortedByDate(view) ==>
      exists i :: IsLastOf(view, c, i) && AlertFor(view, hasAqi, c).level == Classify(view[i].aqi) &&
        forall j :: 0 <= j < |view| && view[j].city == c ==> view[j].date <= view[i].date
  {
    var rs := Aggregates.CityRows(view, c);
    Aggregates.CityMeanDefined(view, c);
    assert HasReading(view, c) <==> |Aggregates.Values(rs)| > 0;
    if hasAqi && |Aggregates.Values(rs)| > 0 {
      var i := LastCityRow(view, c);
    }
  }

  /** The alert loop over the selected cities, in selection order. */
  method Alerts(view: seq<Row>, hasAqi: bool, selected: seq<City>) returns (alerts: seq<Alert>)
    ensures |alerts| == |selected|
    ensures forall k :: 0 <= k < |selected| ==> alerts[k] == AlertFor(view, hasAqi, selected[k])
  {
    alerts := [];
    for k := 0 to |selected|
      invariant |alerts| == k
      invariant forall m :: 0 <= m < k ==> alerts[m] == AlertFor(view, hasAqi, selected[m])
    {
      alerts := alerts + [AlertFor(view, hasAqi, selected[k])];
    }
  }
}
