/** The KPI block and the per-city comparison table: means of the `AQI`
    column that skip missing values, per-city group means, and the cities
    `idxmax` and `idxmin` pick. AQI values are exact reals. */
module Aggregates {
  import opened Data
  import TextOrder

  /** `['AQI'].dropna()`: the present AQI values, in row order. Each value
      occurs once for every row that holds it. */
  function Values(rows: seq<Row>): (r: seq<real>)
    ensures |r| <= |rows|
    ensures forall v :: v in r <==> exists i :: 0 <= i < |rows| && rows[i].aqi == Some(v)
    ensures forall v :: multiset(r)[v] == |RowsWith(rows, v)|
  {
    if |rows| == 0 then []
    else
      var n := |rows| - 1;
      var rest := Values(rows[..n]);
      var r := match rows[n].aqi
        case Some(v) => rest + [v]
        case None => rest;
      forall v ensures multiset(r)[v] == |RowsWith(rows, v)| {
        RowsWithSnoc(rows, v);
      }
      forall v ensures v in r <==> exists i :: 0 <= i < |rows| && rows[i].aqi == Some(v) {
        RowsWithNonEmpty(rows, v);
      }
      r
  }

  /** The positions of the rows whose AQI is `v`. */
  function RowsWith(rows: seq<Row>, v: real): set<int> {
    set i | 0 <= i < |rows| && rows[i].aqi == Some(v)
  }

  /** The rows holding `v` are those of all rows but the last, and the last
      when it holds `v`. */
  lemma RowsWithSnoc(rows: seq<Row>, v: real)
    requires |rows| > 0
    ensures |RowsWith(rows, v)| ==
      |RowsWith(rows[..|rows| - 1], v)| + if rows[|rows| - 1].aqi == Some(v) then 1 else 0
  {
    var n := |rows| - 1;
    var before := RowsWith(rows[..n], v);
    var after := if rows[n].aqi == Some(v) then before + {n} else before;
    forall i ensures i in RowsWith(rows, v) <==> i in after {
      if 0 <= i < n {
        assert rows[..n][i] == rows[i];
      }
    }
    assert RowsWith(rows, v) == after;
    assert n !in before;
  }

  /** Some row holds `v` exactly when the set of positions holding it is
      not empty. */
  lemma RowsWithNonEmpty(rows: seq<Row>, v: real)
    ensures |RowsWith(rows, v)| > 0 <==> exists i :: 0 <= i < |rows| && rows[i].aqi == Some(v)
  {
    if |RowsWith(rows, v)| > 0 {
      var i :| i in RowsWith(rows, v);
    }
    if exists i :: 0 <= i < |rows| && rows[i].aqi == Some(v) {
      var i :| 0 <= i < |rows| && rows[i].aqi == Some(v);
      assert i in RowsWith(rows, v);
    }
  }

  function Sum(xs: seq<real>): real {
    if |xs| == 0 then 0.0 else xs[0] + Sum(xs[1..])
  }

  /** pandas' `mean()` with NaN skipped: `None` (NaN) when nothing is left. */
  function Mean(xs: seq<real>): (m: Option<real>)
    ensures m.None? <==> |xs| == 0
  {
    if |xs| == 0 then None else Some(Sum(xs) / (|xs| as real))
  }

  function Min(xs: seq<real>): (m: real)
    requires |xs| > 0
    ensures m in xs
    ensures forall i :: 0 <= i < |xs| ==> m <= xs[i]
  {
    if |xs| == 1 then xs[0]
    else
      var rest := Min(xs[1..]);
      assert forall i :: 1 <= i < |xs| ==> xs[i] == xs[1..][i - 1];
      if xs[0] <= rest then xs[0] else rest
  }

  function Max(xs: seq<real>): (m: real)
    requires |xs| > 0
    ensures m in xs
    ensures forall i :: 0 <= i < |xs| ==> xs[i] <= m
  {
    if |xs| == 1 then xs[0]
    else
      var rest := Max(xs[1..]);
      assert forall i :: 1 <= i < |xs| ==> xs[i] == xs[1..][i - 1];
      if rest <= xs[0] then xs[0] else rest
  }

  lemma {:induction false} SumBounds(xs: seq<real>, lo: real, hi: real)
    requires forall i :: 0 <= i < |xs| ==> lo <= xs[i] <= hi
    ensures (|xs| as real) * lo <= Sum(xs) <= (|xs| as real) * hi
  {
    if |xs| > 0 {
      assert forall i :: 0 <= i < |xs[1..]| ==> xs[1..][i] == xs[i + 1];
      SumBounds(xs[1..], lo, hi);
    }
  }

  lemma QuotientBounds(total: real, n: real, lo: real, hi: real)
    requires n > 0.0 && n * lo <= total <= n * hi
    ensures lo <= total / n <= hi
  {
    var q := total / n;
    assert q * n == total;
    assert (q - lo) * n == total - n * lo;
    assert (hi - q) * n == n * hi - total;
  }

  /** A mean of values that all lie in [lo, hi] lies in [lo, hi]. */
  lemma MeanBetween(xs: seq<real>, lo: real, hi: real)
    requires |xs| > 0
    requires forall i :: 0 <= i < |xs| ==> lo <= xs[i] <= hi
    ensures lo <= Sum(xs) / (|xs| as real) <= hi
  {
    SumBounds(xs, lo, hi);
    QuotientBounds(Sum(xs), |xs| as real, lo, hi);
  }

  /** A mean lies between the smallest and the largest value it averages. */
  lemma MeanWithinRange(xs: seq<real>)
    requires |xs| > 0
    ensures Min(xs) <= Mean(xs).value <= Max(xs)
  {
    MeanBetween(xs, Min(xs), Max(xs));
  }

  /** The positions of the view's rows that belong to city `c`. */
  function PositionsOf(view: seq<Row>, c: City): set<int> {
    set i | 0 <= i < |view| && view[i].city == c
  }

  /** The rows of `c` are those of all rows but the last, and the last when
      it is `c`'s. */
  lemma PositionsOfSnoc(view: seq<Row>, c: City)
    requires |view| > 0
    ensures |PositionsOf(view, c)| ==
      |PositionsOf(view[..|view| - 1], c)| + if view[|view| - 1].city == c then 1 else 0
  {
    var n := |view| - 1;
    var before := PositionsOf(view[..n], c);
    var after := if view[n].city == c then before + {n} else before;
    forall i ensures i in PositionsOf(view, c) <==> i in after {
      if 0 <= i < n {
        assert view[..n][i] == view[i];
      }
    }
    assert PositionsOf(view, c) == after;
    assert n !in before;
  }

  /** `view[view['City'] == c]`: the rows of one city, in view order. Being a
      subsequence of the view that holds only `c`'s rows and has one element
      per position of `c` in the view, it is exactly those rows, each as
      often as in the view. */
  function CityRows(view: seq<Row>, c: City): (r: seq<Row>)
    ensures SubsequenceOf(r, view)
    ensures |r| == |PositionsOf(view, c)|
    ensures forall x :: x in r <==> x in view && x.city == c
  {
    if |view| == 0 then []
    else
      var init := view[..|view| - 1];
      var last := view[|view| - 1];
      var rest := CityRows(init, c);
      assert view == init + [last];
      PositionsOfSnoc(view, c);
      if last.city == c then
        SubsequenceSnoc(rest, init, last);
        rest + [last]
      else
        SubsequenceExtend(rest, init, last);
        rest
  }

  /** A value left after NaN is dropped comes from a row of city `c`. */
  lemma CityValueHasRow(view: seq<Row>, c: City, v: real)
    requires v in Values(CityRows(view, c))
    ensures exists i :: 0 <= i < |view| && view[i].city == c && view[i].aqi.Some?
  {
    var rs := CityRows(view, c);
    var i :| 0 <= i < |rs| && rs[i].aqi == Some(v);
    assert rs[i] in rs;
    var k :| 0 <= k < |view| && view[k] == rs[i];
  }

  /** A row of city `c` with an AQI value leaves that value after NaN is
      dropped. */
  lemma CityRowHasValue(view: seq<Row>, c: City, i: int)
    requires 0 <= i < |view| && view[i].city == c && view[i].aqi.Some?
    ensures view[i].aqi.value in Values(CityRows(view, c))
  {
    var rs := CityRows(view, c);
    assert view[i] in rs;
    var k :| 0 <= k < |rs| && rs[k] == view[i];
  }

  /** Some row of city `c` has an AQI value exactly when the city's rows
      leave a value after NaN is dropped. */
  lemma CityReadings(view: seq<Row>, c: City)
    ensures |Values(CityRows(view, c))| > 0 <==> exists i :: 0 <= i < |view| && view[i].city == c && view[i].aqi.Some?
  {
    var vs := Values(CityRows(view, c));
    if |vs| > 0 {
      CityValueHasRow(view, c, vs[0]);
    }
    if exists i :: 0 <= i < |view| && view[i].city == c && view[i].aqi.Some? {
      var i :| 0 <= i < |view| && view[i].city == c && view[i].aqi.Some?;
      CityRowHasValue(view, c, i);
    }
  }

  /** The mean AQI of one city in the view, as `groupby('City')['AQI'].mean()`
      has it: defined exactly when one of the city's rows has an AQI value. */
  function CityMean(view: seq<Row>, c: City): (m: Option<real>)
    ensures m.Some? <==> exists i :: 0 <= i < |view| && view[i].city == c && view[i].aqi.Some?
  {
    CityReadings(view, c);
    Mean(Values(CityRows(view, c)))
  }

  /** A city has a mean exactly when one of its rows has an AQI value, and the
      mean is then the average of those values. */
  lemma CityMeanDefined(view: seq<Row>, c: City)
    ensures CityMean(view, c).Some? <==> exists i :: 0 <= i < |view| && view[i].city == c && view[i].aqi.Some?
    ensures CityMean(view, c).Some? ==>
      var vs := Values(CityRows(view, c));
      CityMean(view, c).value == Sum(vs) / (|vs| as real) && Min(vs) <= CityMean(view, c).value <= Max(vs)
  {
    var vs := Values(CityRows(view, c));
    if |vs| > 0 {
      MeanWithinRange(vs);
    }
  }

  /** Some row of the view belongs to city `c`. */
  predicate InView(view: seq<Row>, c: City) {
    exists k :: 0 <= k < |view| && view[k].city == c
  }

  /** Some entry of a group table is keyed by `c`. */
  predicate HasKey(s: seq<(City, Option<real>)>, c: City) {
    exists i :: 0 <= i < |s| && s[i].0 == c
  }

  /** `groupby('City')['AQI'].mean()`: one entry per city of the view, keys in
      increasing order, each with that city's mean (NaN as `None`). */
  function GroupMeans(view: seq<Row>): (r: seq<(City, Option<real>)>)
    ensures forall i, j :: 0 <= i < j < |r| ==> TextOrder.Less(r[i].0, r[j].0)
    ensures forall c :: HasKey(r, c) <==> InView(view, c)
    ensures forall i :: 0 <= i < |r| ==> r[i].1 == CityMean(view, r[i].0)
  {
    var column := CityColumn(view);
    var keys := TextOrder.SortedDistinct(column);
    assert forall c :: c in column <==> InView(view, c) by {
      forall c ensures c in column <==> InView(view, c) {
        if c in column {
          var k :| 0 <= k < |column| && column[k] == c;
          assert view[k].city == c;
        }
      }
    }
    var r := seq(|keys|, i requires 0 <= i < |keys| => (keys[i], CityMean(view, keys[i])));
    assert forall c :: HasKey(r, c) <==> c in keys by {
      forall c ensures HasKey(r, c) <==> c in keys {
        if c in keys {
          var i :| 0 <= i < |keys| && keys[i] == c;
          assert r[i].0 == c;
        }
      }
    }
    r
  }

  /** Every city with a mean is a key of the group table. */
  lemma CityWithMeanIsGrouped(view: seq<Row>, c: City)
    requires CityMean(view, c).Some?
    ensures HasKey(GroupMeans(view), c)
  {
    CityMeanDefined(view, c);
  }

  /** `idxmax()` with NaN skipped, as a position: the first entry holding the
      largest mean; `None` when every mean is NaN. */
  function ArgMax(s: seq<(City, Option<real>)>): (r: Option<nat>)
    ensures r.None? <==> forall j :: 0 <= j < |s| ==> s[j].1.None?
    ensures r.Some? ==> r.value < |s| && s[r.value].1.Some?
    ensures r.Some? ==> forall j :: 0 <= j < |s| && s[j].1.Some? ==> s[j].1.value <= s[r.value].1.value
    ensures r.Some? ==> forall j :: 0 <= j < r.value && s[j].1.Some? ==> s[j].1.value < s[r.value].1.value
  {
    if |s| == 0 then None
    else
      var init := s[..|s| - 1];
      assert forall j :: 0 <= j < |init| ==> init[j] == s[j];
      var i := ArgMax(init);
      var last := s[|s| - 1].1;
      if last.None? then i
      else if i.None? || s[i.value].1.value < last.value then Some(|s| - 1)
      else i
  }

  /** `idxmin()` with NaN skipped, as a position: the first entry holding the
      smallest mean; `None` when every mean is NaN. */
  function ArgMin(s: seq<(City, Option<real>)>): (r: Option<nat>)
    ensures r.None? <==> forall j :: 0 <= j < |s| ==> s[j].1.None?
    ensures r.Some? ==> r.value < |s| && s[r.value].1.Some?
    ensures r.Some? ==> forall j :: 0 <= j < |s| && s[j].1.Some? ==> s[r.value].1.value <= s[j].1.value
    ensures r.Some? ==> forall j :: 0 <= j < r.value && s[j].1.Some? ==> s[r.value].1.value < s[j].1.value
  {
    if |s| == 0 then None
    else
      var init := s[..|s| - 1];
      assert forall j :: 0 <= j < |init| ==> init[j] == s[j];
      var i := ArgMin(init);
      var last := s[|s| - 1].1;
      if last.None? then i
      else if i.None? || last.value < s[i.value].1.value then Some(|s| - 1)
      else i
  }

  function KeyAt(s: seq<(City, Option<real>)>, i: Option<nat>): Option<City> {
    match i
    case Some(k) => if k < |s| then Some(s[k].0) else None
    case None => None
  }

  /** The three KPI values: average AQI, worst city, best city. */
  datatype Kpis = Kpis(average: Option<real>, worst: Option<City>, best: Option<City>)

  /** The KPI block, shown only when the view has an `AQI` column and rows. */
  function KpiMetrics(view: seq<Row>, hasAqi: bool): (r: Option<Kpis>)
    ensures r.Some? <==> hasAqi && |view| > 0
  {
    if hasAqi && |view| > 0 then
      var groups := GroupMeans(view);
      Some(Kpis(Mean(Values(view)), KeyAt(groups, ArgMax(groups)), KeyAt(groups, ArgMin(groups))))
    else None
  }

  /** The average is the sum of the present AQI values over their count and
      lies between the smallest and the largest; it is NaN exactly when no
      row has an AQI value. */
  lemma AverageIsMean(view: seq<Row>)
    requires |view| > 0
    ensures var avg := KpiMetrics(view, true).value.average;
      && (avg.Some? <==> exists i :: 0 <= i < |view| && view[i].aqi.Some?)
      && (avg.Some? ==>
            var vs := Values(view);
            avg.value == Sum(vs) / (|vs| as real) && Min(vs) <= avg.value <= Max(vs))
  {
    var vs := Values(view);
    if |vs| > 0 {
      MeanWithinRange(vs);
      assert vs[0] in vs;
    }
    if exists i :: 0 <= i < |view| && view[i].aqi.Some? {
      var i :| 0 <= i < |view| && view[i].aqi.Some?;
      assert view[i].aqi.value in vs;
    }
  }

  /** No city of the view has a mean: every AQI value in it is missing. */
  ghost predicate NoCityMean(view: seq<Row>) {
    forall c :: CityMean(view, c).None?
  }

  /** `w` has the largest mean, and every other city with that mean comes
      after it in string (code-point) order. */
  ghost predicate IsWorst(view: seq<Row>, w: City) {
    && CityMean(view, w).Some?
    && (forall c :: CityMean(view, c).Some? ==> CityMean(view, c).value <= CityMean(view, w).value)
    && (forall c :: c != w && CityMean(view, c) == CityMean(view, w) ==> TextOrder.Less(w, c))
  }

  /** `b` has the smallest mean, and every other city with that mean comes
      after it in string (code-point) order. */
  ghost predicate IsBest(view: seq<Row>, b: City) {
    && CityMean(view, b).Some?
    && (forall c :: CityMean(view, c).Some? ==> CityMean(view, b).value <= CityMean(view, c).value)
    && (forall c :: c != b && CityMean(view, c) == CityMean(view, b) ==> TextOrder.Less(b, c))
  }

  /** The entry of the group table keyed by a city with a mean. */
  lemma GroupEntry(view: seq<Row>, c: City) returns (j: nat)
    requires CityMean(view, c).Some?
    ensures j < |GroupMeans(view)| && GroupMeans(view)[j] == (c, CityMean(view, c))
  {
    var g := GroupMeans(view);
    CityWithMeanIsGrouped(view, c);
    j :| 0 <= j < |g| && g[j].0 == c;
  }

  /** The worst city is the city with the largest mean, the first in string
      (code-point) order among ties; there is none exactly when no city has a
      mean. */
  lemma WorstCityHasMaximalMean(view: seq<Row>)
    requires |view| > 0
    ensures KpiMetrics(view, true).value.worst.None? <==> NoCityMean(view)
    ensures KpiMetrics(view, true).value.worst.Some? ==> IsWorst(view, KpiMetrics(view, true).value.worst.value)
  {
    var g := GroupMeans(view);
    var a := ArgMax(g);
    assert KpiMetrics(view, true).value.worst == KeyAt(g, a);
    if a.None? {
      forall c ensures CityMean(view, c).None? {
        if CityMean(view, c).Some? {
          var j := GroupEntry(view, c);
        }
      }
    } else {
      var w := g[a.value].0;
      assert CityMean(view, w) == g[a.value].1;
      forall c | CityMean(view, c).Some?
        ensures CityMean(view, c).value <= CityMean(view, w).value
      {
        var j := GroupEntry(view, c);
      }
      forall c | c != w && CityMean(view, c) == CityMean(view, w)
        ensures TextOrder.Less(w, c)
      {
        var j := GroupEntry(view, c);
        assert j != a.value;
      }
    }
  }

  /** The best city is the city with the smallest mean, the first in string
      (code-point) order among ties; there is none exactly when no city has a
      mean. */
  lemma BestCityHasMinimalMean(view: seq<Row>)
    requires |view| > 0
    ensures KpiMetrics(view, true).value.best.None? <==> NoCityMean(view)
    ensures KpiMetrics(view, true).value.best.Some? ==> IsBest(view, KpiMetrics(view, true).value.best.value)
  {
    var g := GroupMeans(view);
    var a := ArgMin(g);
    assert KpiMetrics(view, true).value.best == KeyAt(g, a);
    if a.None? {
      forall c ensures CityMean(view, c).None? {
        if CityMean(view, c).Some? {
          var j := GroupEntry(view, c);
        }
      }
    } else {
      var b := g[a.value].0;
      assert CityMean(view, b) == g[a.value].1;
      forall c | CityMean(view, c).Some?
        ensures CityMean(view, b).value <= CityMean(view, c).value
      {
        var j := GroupEntry(view, c);
      }
      forall c | c != b && CityMean(view, c) == CityMean(view, b)
        ensures TextOrder.Less(b, c)
      {
        var j := GroupEntry(view, c);
        assert j != a.value;
      }
    }
  }
}
