/** The filter mask of the dashboard: selected cities and an inclusive date
    interval. */
module Filtering {
  import opened Data

  /** One row of the mask: `City.isin(selected)`, `Date >= start`, `Date <= end`.
      No row matches an empty selection or an interval whose start is after its end. */
  predicate Matches(row: Row, selected: set<City>, start: Timestamp, end: Timestamp): (b: bool)
    ensures b ==> row.city in selected && start <= end
    ensures selected == {} || end < start ==> !b
  {
    row.city in selected && start <= row.date && row.date <= end
  }

  /** `df.loc[mask]`: the rows that satisfy the mask, in table order. */
  function Filter(rows: seq<Row>, selected: set<City>, start: Timestamp, end: Timestamp): (r: seq<Row>)
    ensures SubsequenceOf(r, rows)
    ensures forall x :: multiset(r)[x] == if Matches(x, selected, start, end) then multiset(rows)[x] else 0
  {
    if |rows| == 0 then []
    else
      var rest := Filter(rows[1..], selected, start, end);
      assert rows == [rows[0]] + rows[1..];
      assert multiset(rows) == multiset{rows[0]} + multiset(rows[1..]);
      if Matches(rows[0], selected, start, end) then
        var r := [rows[0]] + rest;
        assert r[1..] == rest;
        assert multiset(r) == multiset{rows[0]} + multiset(rest);
        r
      else
        rest
  }

  /** A row is in the view exactly when it is in the table and matches. */
  lemma FilterMembership(rows: seq<Row>, selected: set<City>, start: Timestamp, end: Timestamp, x: Row)
    ensures x in Filter(rows, selected, start, end) <==> x in rows && Matches(x, selected, start, end)
  {
    var r := Filter(rows, selected, start, end);
    assert x in r <==> multiset(r)[x] > 0;
    assert x in rows <==> multiset(rows)[x] > 0;
  }

  /** Selecting no city gives an empty view. */
  lemma {:induction false} FilterNoCities(rows: seq<Row>, start: Timestamp, end: Timestamp)
    ensures Filter(rows, {}, start, end) == []
  {
    if |rows| > 0 {
      FilterNoCities(rows[1..], start, end);
    }
  }

  /** A date interval whose start lies after its end gives an empty view. */
  lemma {:induction false} FilterEmptyInterval(rows: seq<Row>, selected: set<City>, start: Timestamp, end: Timestamp)
    requires end < start
    ensures Filter(rows, selected, start, end) == []
  {
    if |rows| > 0 {
      FilterEmptyInterval(rows[1..], selected, start, end);
    }
  }

  /** Filtering a view again with the same selection leaves it as it is. */
  lemma {:induction false} FilterIdempotent(rows: seq<Row>, selected: set<City>, start: Timestamp, end: Timestamp)
    ensures Filter(Filter(rows, selected, start, end), selected, start, end) == Filter(rows, selected, start, end)
  {
    if |rows| > 0 {
      FilterIdempotent(rows[1..], selected, start, end);
      var rest := Filter(rows[1..], selected, start, end);
      if Matches(rows[0], selected, start, end) {
        assert ([rows[0]] + rest)[1..] == rest;
      }
    }
  }

  /** The view of a date-ordered table is date-ordered. */
  lemma {:induction false} FilterKeepsDateOrder(rows: seq<Row>, selected: set<City>, start: Timestamp, end: Timestamp)
    requires SortedByDate(rows)
    ensures SortedByDate(Filter(rows, selected, start, end))
  {
    if |rows| > 0 {
      FilterKeepsDateOrder(rows[1..], selected, start, end);
      var rest := Filter(rows[1..], selected, start, end);
      if Matches(rows[0], selected, start, end) {
        forall k | 0 <= k < |rest| ensures rows[0].date <= rest[k].date {
          FilterMembership(rows[1..], selected, start, end, rest[k]);
          var m :| 0 <= m < |rows[1..]| && rows[1..][m] == rest[k];
          assert rows[m + 1] == rest[k];
        }
        var r := [rows[0]] + rest;
        forall i, j | 0 <= i < j < |r| ensures r[i].date <= r[j].date {
          assert r[j] == rest[j - 1];
          if i > 0 {
            assert r[i] == rest[i - 1];
          }
        }
      }
    }
  }
}
