/** Concrete views and what the model computes for them: a worked example of
    the KPI and alert sections, and a tie between two cities. The dates are
    parameters: the results hold whatever the two days are. */
module Scenarios {
  import opened Data
  import Aggregates
  import Alerts
  import TextOrder

  /** Delhi reads 45 on `day1` and 220 on `day2`, Mumbai 80 on `day1`. */
  function Example(day1: Timestamp, day2: Timestamp): seq<Row> {
    [Row("Delhi", day1, Some(45.0)), Row("Mumbai", day1, Some(80.0)), Row("Delhi", day2, Some(220.0))]
  }

  /** Mumbai and Delhi both average 100; Mumbai comes first. */
  function Tie(day1: Timestamp, day2: Timestamp): seq<Row> {
    [Row("Mumbai", day1, Some(100.0)), Row("Delhi", day2, Some(100.0))]
  }

  lemma DelhiBeforeMumbai()
    ensures TextOrder.Less("Delhi", "Mumbai")
    ensures "Delhi" != "Mumbai"
  {
    assert "Delhi"[0] != "Mumbai"[0];
  }

  lemma ValuesOfOne(x: Row)
    requires x.aqi.Some?
    ensures Aggregates.Values([x]) == [x.aqi.value]
  {
    assert [x][..0] == [];
  }

  lemma ValuesOfTwo(x: Row, y: Row)
    requires x.aqi.Some? && y.aqi.Some?
    ensures Aggregates.Values([x, y]) == [x.aqi.value, y.aqi.value]
  {
    assert [x, y][..1] == [x];
    ValuesOfOne(x);
  }

  lemma MeanOfOne(x: real)
    ensures Aggregates.Mean([x]) == Some(x)
  {
    assert [x][1..] == [];
    var xs := [x];
    assert Aggregates.Sum(xs) == x;
    assert |xs| == 1;
    assert Aggregates.Mean(xs) == Some(Aggregates.Sum(xs) / (|xs| as real));
  }

  lemma MeanOfTwo(x: real, y: real)
    ensures Aggregates.Mean([x, y]) == Some((x + y) / 2.0)
  {
    assert [y][1..] == [];
    assert Aggregates.Sum([y]) == y;
    assert [x, y][1..] == [y];
  }

  /** One step of `CityRows`: the last row joins the city's rows when it is
      the city's. */
  lemma CityRowsStep(view: seq<Row>, c: City)
    requires |view| > 0
    ensures Aggregates.CityRows(view, c) ==
      Aggregates.CityRows(view[..|view| - 1], c) + if view[|view| - 1].city == c then [view[|view| - 1]] else []
  {
  }

  lemma CityRowsOfOne(x: Row, c: City)
    ensures Aggregates.CityRows([x], c) == if x.city == c then [x] else []
  {
    assert [x][..0] == [];
  }

  lemma ExampleCityRows(day1: Timestamp, day2: Timestamp)
    ensures Aggregates.CityRows(Example(day1, day2), "Delhi") == [Example(day1, day2)[0], Example(day1, day2)[2]]
    ensures Aggregates.CityRows(Example(day1, day2), "Mumbai") == [Example(day1, day2)[1]]
  {
    var view := Example(day1, day2);
    var v1, v2 := [view[0]], [view[0], view[1]];
    assert v2[..1] == v1 && view[..2] == v2;
    DelhiBeforeMumbai();
    CityRowsOfOne(view[0], "Delhi");
    CityRowsOfOne(view[0], "Mumbai");
    CityRowsStep(v2, "Delhi");
    CityRowsStep(v2, "Mumbai");
    CityRowsStep(view, "Delhi");
    CityRowsStep(view, "Mumbai");
  }

  lemma ExampleAverage(day1: Timestamp, day2: Timestamp)
    ensures Aggregates.Mean(Aggregates.Values(Example(day1, day2))) == Some(115.0)
  {
    var view := Example(day1, day2);
    assert view[..2] == [view[0], view[1]];
    ValuesOfTwo(view[0], view[1]);
    var xs := [45.0, 80.0, 220.0];
    assert Aggregates.Values(view) == xs;
    assert xs[1..] == [80.0, 220.0] && [80.0, 220.0][1..] == [220.0] && [220.0][1..] == [];
    assert Aggregates.Sum(xs) == 345.0;
  }

  lemma DelhiMean(day1: Timestamp, day2: Timestamp)
    ensures Aggregates.CityMean(Example(day1, day2), "Delhi") == Some(132.5)
  {
    var view := Example(day1, day2);
    ExampleCityRows(day1, day2);
    ValuesOfTwo(view[0], view[2]);
    MeanOfTwo(45.0, 220.0);
  }

  lemma MumbaiMean(day1: Timestamp, day2: Timestamp)
    ensures Aggregates.CityMean(Example(day1, day2), "Mumbai") == Some(80.0)
  {
    var view := Example(day1, day2);
    ExampleCityRows(day1, day2);
    ValuesOfOne(view[1]);
    MeanOfOne(80.0);
  }

  /** In a view of two cities, `a` is worst when its mean beats `b`'s, or
      ties with it and `a` comes first in string (code-point) order. */
  lemma WorstOfTwo(view: seq<Row>, a: City, b: City)
    requires |view| > 0
    requires forall k :: 0 <= k < |view| ==> view[k].city == a || view[k].city == b
    requires Aggregates.CityMean(view, a).Some?
    requires Aggregates.CityMean(view, b).Some? ==>
      var ma, mb := Aggregates.CityMean(view, a).value, Aggregates.CityMean(view, b).value;
      mb < ma || (mb == ma && TextOrder.Less(a, b))
    ensures Aggregates.KpiMetrics(view, true).value.worst == Some(a)
  {
    Aggregates.WorstCityHasMaximalMean(view);
    var w := Aggregates.KpiMetrics(view, true).value.worst.value;
    var i :| 0 <= i < |view| && view[i].city == w && view[i].aqi.Some?;
    assert w == a || w == b;
    TextOrder.LessAsymmetric(a, b);
  }

  /** In a view of two cities, `a` is best when its mean is below `b`'s, or
      ties with it and `a` comes first in string (code-point) order. */
  lemma BestOfTwo(view: seq<Row>, a: City, b: City)
    requires |view| > 0
    requires forall k :: 0 <= k < |view| ==> view[k].city == a || view[k].city == b
    requires Aggregates.CityMean(view, a).Some?
    requires Aggregates.CityMean(view, b).Some? ==>
      var ma, mb := Aggregates.CityMean(view, a).value, Aggregates.CityMean(view, b).value;
      ma < mb || (mb == ma && TextOrder.Less(a, b))
    ensures Aggregates.KpiMetrics(view, true).value.best == Some(a)
  {
    Aggregates.BestCityHasMinimalMean(view);
    var w := Aggregates.KpiMetrics(view, true).value.best.value;
    var i :| 0 <= i < |view| && view[i].city == w && view[i].aqi.Some?;
    assert w == a || w == b;
    TextOrder.LessAsymmetric(a, b);
  }

  lemma ExampleWorst(day1: Timestamp, day2: Timestamp)
    ensures Aggregates.KpiMetrics(Example(day1, day2), true).value.worst == Some("Delhi")
  {
    DelhiMean(day1, day2);
    MumbaiMean(day1, day2);
    WorstOfTwo(Example(day1, day2), "Delhi", "Mumbai");
  }

  lemma ExampleBest(day1: Timestamp, day2: Timestamp)
    ensures Aggregates.KpiMetrics(Example(day1, day2), true).value.best == Some("Mumbai")
  {
    DelhiMean(day1, day2);
    MumbaiMean(day1, day2);
    BestOfTwo(Example(day1, day2), "Mumbai", "Delhi");
  }

  /** The average is 115, Delhi (mean 132.5) is worst and Mumbai (80) best. */
  lemma ExampleKpis(day1: Timestamp, day2: Timestamp)
    ensures Aggregates.KpiMetrics(Example(day1, day2), true) == Some(Aggregates.Kpis(Some(115.0), Some("Delhi"), Some("Mumbai")))
  {
    ExampleAverage(day1, day2);
    ExampleWorst(day1, day2);
    ExampleBest(day1, day2);
  }

  /** The last readings put Delhi (220) in `Severe` and Mumbai (80) in
      `Moderate`. */
  lemma ExampleAlerts(day1: Timestamp, day2: Timestamp)
    ensures Alerts.AlertFor(Example(day1, day2), true, "Delhi") == Alerts.Banner("Delhi", Alerts.Severe)
    ensures Alerts.AlertFor(Example(day1, day2), true, "Mumbai") == Alerts.Banner("Mumbai", Alerts.Moderate)
  {
    var view := Example(day1, day2);
    ExampleCityRows(day1, day2);
    ValuesOfTwo(view[0], view[2]);
    ValuesOfOne(view[1]);
  }

  lemma TieCityRows(day1: Timestamp, day2: Timestamp)
    ensures Aggregates.CityRows(Tie(day1, day2), "Delhi") == [Tie(day1, day2)[1]]
    ensures Aggregates.CityRows(Tie(day1, day2), "Mumbai") == [Tie(day1, day2)[0]]
  {
    var view := Tie(day1, day2);
    assert view[..1] == [view[0]];
    DelhiBeforeMumbai();
    CityRowsOfOne(view[0], "Delhi");
    CityRowsOfOne(view[0], "Mumbai");
    CityRowsStep(view, "Delhi");
    CityRowsStep(view, "Mumbai");
  }

  lemma TieMeans(day1: Timestamp, day2: Timestamp)
    ensures Aggregates.Mean(Aggregates.Values(Tie(day1, day2))) == Some(100.0)
    ensures Aggregates.CityMean(Tie(day1, day2), "Delhi") == Some(100.0)
    ensures Aggregates.CityMean(Tie(day1, day2), "Mumbai") == Some(100.0)
  {
    var view := Tie(day1, day2);
    ValuesOfTwo(view[0], view[1]);
    MeanOfTwo(100.0, 100.0);
    TieCityRows(day1, day2);
    ValuesOfOne(view[0]);
    ValuesOfOne(view[1]);
    MeanOfOne(100.0);
  }

  /** Two cities with equal means: `groupby` orders its keys, so Delhi is both
      worst and best although Mumbai comes first in the view. */
  lemma TieGoesToFirstCityName(day1: Timestamp, day2: Timestamp)
    ensures Aggregates.KpiMetrics(Tie(day1, day2), true) == Some(Aggregates.Kpis(Some(100.0), Some("Delhi"), Some("Delhi")))
  {
    var view := Tie(day1, day2);
    DelhiBeforeMumbai();
    TieMeans(day1, day2);
    WorstOfTwo(view, "Delhi", "Mumbai");
    BestOfTwo(view, "Delhi", "Mumbai");
  }
}
