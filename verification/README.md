# Air-quality dashboard: the table logic, in Dafny

The dashboard is a Streamlit script. It loads `city_day.csv`, cleans it and
lets the user choose cities, a date range and a pollutant. It then shows three
KPI figures (average AQI, worst city, best city), a per-city AQI comparison,
charts, and one alert line per selected city. This project models the part of
the script that computes tables and values. That part has five operations:

- **Cleaning** (`Cleaning.Clean`). The date column comes from `Datetime` when
  the frame has that column, otherwise from `Date`. A text the parser rejects
  becomes a missing date. Rows without a city or a date are dropped, and the
  rest are ordered by date. Three per-row definitions carry these rules:
  `Cleaning.DateSource` (which cell the date text comes from),
  `Cleaning.ParsedDate` (that text parsed, or a missing date) and
  `Cleaning.Keep` (the typed row, when both the city and the date are present).
  The contracts of `Cleaning.Clean` and `Cleaning.RetainedExactly` are stated
  in terms of them. When a column the block looks up is absent, the
  script stops with a `KeyError`; the model returns `Failure(MissingColumn(..))`
  for it.
- **City options** (`Cleaning.CityOptions`). The sorted distinct cities of the
  cleaned table, ordered as Python orders `str` values: lexicographically by
  code point (`TextOrder.Less`).
- **Filter** (`Filtering.Filter`). Keeps, in table order, the rows whose city
  is selected and whose date lies in the inclusive interval [start, end].
  The two bounds are the widget's days turned into timestamps at midnight, so
  `end` is the start of the chosen end day. When `Datetime` carries times of
  day, the readings later on that day fall outside [start, end].
- **Aggregates** (`Aggregates`). The KPI block is shown only when the view has
  an `AQI` column and at least one row. The average is the mean of the present
  AQI values. The per-city means come from `groupby('City')`. The worst and
  best cities come from `idxmax` and `idxmin` on those means.
- **Alerts** (`Alerts.Alerts`). For each selected city, the line reads "no
  data" when none of the city's rows in the view has an AQI value. Otherwise it
  gives the band of the AQI on the city's last row: Good up to 50, Moderate up
  to 100, Poor up to 200, Severe above.

AQI values are exact `real`s. A missing value (NaN) is `None`. Timestamps are
integers, which are totally ordered like pandas timestamps. Date parsing is a
parameter `parse: string -> Option<Timestamp>`.

Four behaviours of the code are easy to miss, and the model keeps each as the
code has it:

- **Ties go to the first city in string (code-point) order.** `groupby` sorts
  its keys, and `idxmax`/`idxmin` return the first position holding the
  extreme value. So among cities with equal means, the one whose name sorts
  first is chosen, wherever its rows are in the view
  (`Scenarios.TieGoesToFirstCityName`). Code-point order puts every capital
  letter before every small one: "Zurich" sorts before "agra".
- **The date sort is not stable.** `sort_values` uses pandas' default sort,
  which is not guaranteed to keep rows with equal dates in file order. The model promises
  only ordered dates and the same rows (`Cleaning.SortByDate`).
- **A city whose AQI values are all missing stays in the per-city table.**
  `groupby(...).mean()` keeps such a city with a NaN mean (`None` in
  `Aggregates.GroupMeans`).
- **A NaN on the last row gives Severe.** The "no data" test looks at the
  city's AQI values after dropping NaN. The band, however, comes from the last
  row's AQI before dropping. If that AQI is NaN and the city has some other
  AQI value, every `<=` test fails and the line says Severe
  (`Alerts.MissingReadingIsSevere`, `Alerts.AlertReflectsLatestRow`).

## Model

| member | source | states |
|---|---|---|
| `Cleaning.RetainedExactly` | app.py:57-62 | The retained rows are exactly the typed rows of the raw rows that have a city and a parsed date, and each typed row occurs as often as there are raw rows that give it. The number retained plus the number dropped is the number of raw rows. |
| `Cleaning.RetainedCount` | app.py:62 | A typed row occurs among the retained rows once for each raw row that gives it, so `dropna` neither merges duplicate rows nor repeats one. |
| `Cleaning.Retained` | app.py:62 | `dropna` retains at most as many rows as there are, and all of them exactly when every row has a city and a parsed date. |
| `Cleaning.Dropped` | app.py:62 | `dropna` drops at most every row, and none exactly when every row has a city and a parsed date. |
| `Cleaning.DropIncomplete` | app.py:62 | The loop over the raw rows keeps exactly the retained rows, in file order. |
| `Cleaning.InsertByDate` | app.py:63 | Inserting a row into a date-ordered list keeps it date-ordered and adds exactly that row. |
| `Cleaning.SortByDate` | app.py:63 | The result is ordered by date, non-decreasing, and is a permutation of its input. |
| `Cleaning.Clean` | app.py:57-63 | Succeeds exactly when a date column (`Datetime` or `Date`) and the `City` column exist. Fails with a missing `Date` column exactly when neither `Datetime` nor `Date` exists, and with a missing `City` column exactly when a date column exists but `City` does not. On success the result is date-ordered and a permutation of the retained rows. It holds exactly the rows with a city and a parsed date, and it is shorter than the input by exactly the number of dropped rows. |
| `Cleaning.CityOptions` | app.py:70 | The city options are strictly increasing in Python's string order, and they are exactly the cities that occur in the cleaned table. |
| `TextOrder.SortedDistinct` | app.py:70 | `sorted(set(xs))` is strictly increasing and has exactly the members of `xs`. |
| `TextOrder.InsertSorted` | app.py:70 | Adding a string to a strictly increasing list keeps it strictly increasing, and the members become the old ones plus the new string. |
| `TextOrder.StrictlyIncreasingIsDistinct` | app.py:70 | A strictly increasing list, such as the city options, holds no string twice. |
| `TextOrder.LessTotal` | app.py:70 | Python's string order relates any two distinct strings. |
| `TextOrder.LessTransitive` | app.py:70 | Python's string order is transitive. |
| `TextOrder.LessIrreflexive` | app.py:70 | No string is less than itself. |
| `TextOrder.LessAsymmetric` | app.py:70 | No two strings are each less than the other. |
| `Filtering.Filter` | app.py:82-87 | The view is an order-preserving subsequence of the table. Each row occurs in it as often as in the table when it matches the mask (city selected, start ≤ date ≤ end), and not at all otherwise. |
| `Filtering.Matches` | app.py:82-86 | A row matching the mask has a selected city and lies in an interval whose start is not after its end. No row matches an empty selection or an interval whose start is after its end. |
| `Filtering.FilterMembership` | app.py:82-87 | A row is in the view if and only if it is in the table and matches the mask. |
| `Filtering.FilterNoCities` | app.py:83 | An empty city selection gives an empty view. |
| `Filtering.FilterEmptyInterval` | app.py:84-85 | A start date after the end date gives an empty view. |
| `Filtering.FilterIdempotent` | app.py:82-87 | Filtering a view again with the same selection and interval leaves it unchanged. |
| `Filtering.FilterKeepsDateOrder` | app.py:63-87 | The view of a date-ordered table is date-ordered. |
| `Aggregates.Values` | app.py:96 | The present AQI values are exactly the AQIs of the rows that have one. Each value occurs as many times as there are rows holding it, and there are no more values than rows. |
| `Aggregates.Mean` | app.py:96 | A mean is NaN (`None`) exactly when there is nothing to average. |
| `Aggregates.Min` | app.py:96 | The smallest value is a member of the list and is at most every member. |
| `Aggregates.Max` | app.py:96 | The largest value is a member of the list and is at least every member. |
| `Aggregates.SumBounds` | app.py:96 | If every value lies in [lo, hi], the sum of n values lies in [n·lo, n·hi]. |
| `Aggregates.MeanBetween` | app.py:96 | If every value lies in [lo, hi], their mean lies in [lo, hi]. |
| `Aggregates.MeanWithinRange` | app.py:96 | A mean lies between the minimum and the maximum of the values it averages. |
| `Aggregates.AverageIsMean` | app.py:95-96 | The average AQI is the sum of the present AQI values divided by their count, and it lies between their minimum and maximum. It is NaN exactly when no row has an AQI value. |
| `Aggregates.CityRows` | app.py:162 | The rows of one city form a subsequence of the view, so they keep the view's order. They are exactly the view's rows with that city, and there are as many of them as the view has positions with that city, so none is dropped or repeated. |
| `Aggregates.CityMean` | app.py:97 | A city has a mean (not NaN) exactly when one of its rows in the view has an AQI value. |
| `Aggregates.CityMeanDefined` | app.py:97 | A city has a mean exactly when one of its rows has an AQI value. The mean is then the sum of the city's AQI values over their count, and it lies between their minimum and maximum. |
| `Aggregates.GroupMeans` | app.py:129 | The per-city table has one entry per city in the view, with keys strictly increasing in string order. Each entry's value is that city's mean, or NaN when the city has no AQI value. |
| `Aggregates.CityWithMeanIsGrouped` | app.py:129 | Every city that has a mean appears in the per-city table. |
| `Aggregates.ArgMax` | app.py:97 | `idxmax` skipping NaN returns a position whose mean is at least every non-NaN mean, and every earlier non-NaN mean is strictly smaller. It returns nothing exactly when all means are NaN. |
| `Aggregates.ArgMin` | app.py:98 | `idxmin` skipping NaN returns a position whose mean is at most every non-NaN mean, and every earlier non-NaN mean is strictly larger. It returns nothing exactly when all means are NaN. |
| `Aggregates.KpiMetrics` | app.py:95-98 | The KPI block is computed if and only if the view has an `AQI` column and at least one row. |
| `Aggregates.GroupEntry` | app.py:129 | A city with a mean has an entry in the per-city table, and that entry holds its mean. |
| `Aggregates.WorstCityHasMaximalMean` | app.py:97 | The worst city's mean is at least every city's mean. Every other city with the same mean sorts after it. There is no worst city exactly when no city has a mean. |
| `Aggregates.BestCityHasMinimalMean` | app.py:98 | The best city's mean is at most every city's mean. Every other city with the same mean sorts after it. There is no best city exactly when no city has a mean. |
| `Alerts.Classify` | app.py:165-172 | The band is Good iff AQI ≤ 50, Moderate iff 50 < AQI ≤ 100, Poor iff 100 < AQI ≤ 200, and Severe iff AQI > 200 or the AQI is NaN. |
| `Alerts.ClassifyMonotone` | app.py:165-172 | A higher AQI never gets a less severe band. |
| `Alerts.MissingReadingIsSevere` | app.py:164-172 | A NaN reading is classified Severe, the most severe band. |
| `Alerts.LastCityRow` | app.py:164 | The last of a city's rows is the view's last row with that city. |
| `Alerts.AlertFor` | app.py:162-174 | One pass of the loop body: the alert names its city, says "no data" when the view has no `AQI` column, and gives a banner only for a city that has rows in the view, so `iloc[-1]` always has a row to read. |
| `Alerts.AlertReflectsLatestRow` | app.py:161-174 | An alert names its city. It says "no data" exactly when the view has no `AQI` column or none of the city's rows has an AQI value. Otherwise its band is the classification of the AQI on the view's last row of that city. In a date-ordered view, that row has the city's latest date. |
| `Alerts.Alerts` | app.py:161-174 | The loop gives one alert per selected city, in selection order, each equal to that city's alert line. |
| `Scenarios.WorstOfTwo` | app.py:97 | In a two-city view, city `a` is worst when its mean exceeds `b`'s, or equals it and `a` sorts first. |
| `Scenarios.BestOfTwo` | app.py:98 | In a two-city view, city `a` is best when its mean is below `b`'s, or equals it and `a` sorts first. |
| `Scenarios.ExampleWorst` | app.py:97 | In the worked example, Delhi (mean 132.5) is the worst city. |
| `Scenarios.ExampleBest` | app.py:98 | In the worked example, Mumbai (mean 80) is the best city. |
| `Scenarios.ExampleKpis` | app.py:95-98 | Delhi (45, 220) and Mumbai (80) give average 115, worst Delhi (mean 132.5) and best Mumbai (80), whatever the two dates are. |
| `Scenarios.ExampleAlerts` | app.py:161-172 | In that view, Delhi's last reading (220) is Severe and Mumbai's (80) is Moderate. |
| `Scenarios.TieGoesToFirstCityName` | app.py:97-98 | When Mumbai and Delhi both average 100 and Mumbai's row comes first, Delhi is both worst and best. |

## Left out

- Page configuration, CSS, titles, and the success, warning and error banners are left out (app.py:9-42, 49-51, 100-104). The `:.1f` formatting of alert and KPI texts is left out too (app.py:166-174). All of these only display output.
- The sidebar widgets and their defaults are left out (app.py:68-79). The selected cities, the date interval and the `AQI` column's presence are plain inputs. The widget's dates are taken to be timestamps already, so the `pd.Timestamp(...)` conversion is not modelled. That conversion gives midnight of the chosen day, so `end` stands for midnight of the end day: when `Datetime` carries times of day, readings later on that day fall outside [start, end], and the model, comparing timestamps with `<=` as the code does, excludes them too.
- The pollutant choice and all Plotly charts are left out (app.py:78-79, 111-154). The pollutant is used only by the charts, which render through a foreign library.
- Reading `city_day.csv` and stopping when it fails are left out (app.py:47-52). This is file I/O.
- Parsing date text in `pd.to_datetime` is not modelled; it is the parameter `parse`. A missing cell becomes a missing date before `parse` is called.
- Columns other than `City`, `Datetime`, `Date` and `AQI` are left out. They reach only the charts.
- IEEE floating point is not modelled. Means are exact reals, and NaN is `None`.
- `Cleaning.SortByDate`: the model keeps equal-date rows in file order. pandas' default sort does not fix the order of such rows, so the contract promises only ordered dates and the same rows. The alert's "last row" of a city is therefore fixed only up to that order when two of the city's rows share a date.
- `Aggregates.KpiMetrics`: when no city has a mean, worst and best are `None`. In pandas, `idxmax`/`idxmin` on an all-NaN series return NaN with a warning or raise `ValueError`, depending on the version.
