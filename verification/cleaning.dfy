/** The cleaning block of the dashboard script and the list of city options
    built from its result. */
module Cleaning {
  import opened Data
  import TextOrder

  /** The text the date is parsed from: `Datetime` when the frame has that
      column, otherwise `Date`. */
  function DateSource(row: RawRow, hasDatetime: bool): Option<string> {
    if hasDatetime then row.datetime else row.date
  }

  /** `pd.to_datetime(..., errors='coerce')` on one cell: a missing cell or a
      text `parse` rejects becomes a missing date. */
  function ParsedDate(row: RawRow, hasDatetime: bool, parse: string -> Option<Timestamp>): Option<Timestamp> {
    match DateSource(row, hasDatetime)
    case None => None
    case Some(text) => parse(text)
  }

  /** What `dropna(subset=['City', 'Date'])` keeps of one row: the typed row
      when both the city and the parsed date are present, nothing otherwise. */
  function Keep(row: RawRow, hasDatetime: bool, parse: string -> Option<Timestamp>): Option<Row> {
    match (row.city, ParsedDate(row, hasDatetime, parse))
    case (Some(c), Some(d)) => Some(Row(c, d, row.aqi))
    case _ => None
  }

  /** The rows `dropna` retains, in file order: all of them exactly when
      every row has a city and a parsed date. */
  function Retained(rows: seq<RawRow>, hasDatetime: bool, parse: string -> Option<Timestamp>): (r: seq<Row>)
    ensures |r| <= |rows|
    ensures |r| == |rows| <==> forall i :: 0 <= i < |rows| ==> Keep(rows[i], hasDatetime, parse).Some?
  {
    if |rows| == 0 then []
    else
      var init := Retained(rows[..|rows| - 1], hasDatetime, parse);
      match Keep(rows[|rows| - 1], hasDatetime, parse)
      case Some(row) => init + [row]
      case None => init
  }

  /** How many rows `dropna` discards: none exactly when every row has a
      city and a parsed date. */
  function Dropped(rows: seq<RawRow>, hasDatetime: bool, parse: string -> Option<Timestamp>): (n: nat)
    ensures n <= |rows|
    ensures n == 0 <==> forall i :: 0 <= i < |rows| ==> Keep(rows[i], hasDatetime, parse).Some?
  {
    if |rows| == 0 then 0
    else
      Dropped(rows[..|rows| - 1], hasDatetime, parse)
      + (if Keep(rows[|rows| - 1], hasDatetime, parse).None? then 1 else 0)
  }

  /** The positions of the raw rows that `dropna` turns into the row `x`. */
  function KeptAt(rows: seq<RawRow>, hasDatetime: bool, parse: string -> Option<Timestamp>, x: Row): set<int> {
    set i | 0 <= i < |rows| && Keep(rows[i], hasDatetime, parse) == Some(x)
  }

  /** The raw rows giving `x` are those among all rows but the last, and the
      last when it gives `x`. */
  lemma KeptAtSnoc(rows: seq<RawRow>, hasDatetime: bool, parse: string -> Option<Timestamp>, x: Row)
    requires |rows| > 0
    ensures |KeptAt(rows, hasDatetime, parse, x)| ==
      |KeptAt(rows[..|rows| - 1], hasDatetime, parse, x)| + if Keep(rows[|rows| - 1], hasDatetime, parse) == Some(x) then 1 else 0
  {
    var n := |rows| - 1;
    var before := KeptAt(rows[..n], hasDatetime, parse, x);
    var after := if Keep(rows[n], hasDatetime, parse) == Some(x) then before + {n} else before;
    forall i ensures i in KeptAt(rows, hasDatetime, parse, x) <==> i in after {
      if 0 <= i < n {
        assert rows[..n][i] == rows[i];
      }
    }
    assert KeptAt(rows, hasDatetime, parse, x) == after;
    assert n !in before;
  }

  /** `x` occurs among the retained rows once per raw row that gives it. */
  lemma {:induction false} RetainedCount(rows: seq<RawRow>, hasDatetime: bool, parse: string -> Option<Timestamp>, x: Row)
    ensures multiset(Retained(rows, hasDatetime, parse))[x] == |KeptAt(rows, hasDatetime, parse, x)|
  {
    if |rows| > 0 {
      var init := rows[..|rows| - 1];
      RetainedCount(init, hasDatetime, parse, x);
      KeptAtSnoc(rows, hasDatetime, parse, x);
      var before := Retained(init, hasDatetime, parse);
      match Keep(rows[|rows| - 1], hasDatetime, parse)
      case Some(row) =>
        assert Retained(rows, hasDatetime, parse) == before + [row];
        assert multiset(before + [row]) == multiset(before) + multiset{row};
      case None =>
        assert Retained(rows, hasDatetime, parse) == before;
    }
  }

  /** Every retained row comes from a raw row with a city and a parsed date,
      every such raw row is retained once for each raw row that gives it, and
      exactly the others are dropped. */
  lemma {:induction false} RetainedExactly(rows: seq<RawRow>, hasDatetime: bool, parse: string -> Option<Timestamp>)
    ensures |Retained(rows, hasDatetime, parse)| + Dropped(rows, hasDatetime, parse) == |rows|
    ensures forall x :: x in Retained(rows, hasDatetime, parse) <==>
      exists i :: 0 <= i < |rows| && Keep(rows[i], hasDatetime, parse) == Some(x)
    ensures forall x :: multiset(Retained(rows, hasDatetime, parse))[x] == |KeptAt(rows, hasDatetime, parse, x)|
  {
    if |rows| > 0 {
      RetainedExactly(rows[..|rows| - 1], hasDatetime, parse);
    }
    forall x ensures multiset(Retained(rows, hasDatetime, parse))[x] == |KeptAt(rows, hasDatetime, parse, x)| {
      RetainedCount(rows, hasDatetime, parse, x);
    }
    forall x
      ensures x in Retained(rows, hasDatetime, parse) <==>
        exists i :: 0 <= i < |rows| && Keep(rows[i], hasDatetime, parse) == Some(x)
    {
      var positions := KeptAt(rows, hasDatetime, parse, x);
      RetainedCount(rows, hasDatetime, parse, x);
      if x in Retained(rows, hasDatetime, parse) {
        assert |positions| > 0;
        var i :| i in positions;
      }
      if exists i :: 0 <= i < |rows| && Keep(rows[i], hasDatetime, parse) == Some(x) {
        var i :| 0 <= i < |rows| && Keep(rows[i], hasDatetime, parse) == Some(x);
        assert i in positions;
      }
    }
  }

  /** `x` placed into a date-ordered list after every row with an earlier or
      equal date. */
  function InsertByDate(s: seq<Row>, x: Row): (r: seq<Row>)
    requires SortedByDate(s)
    ensures SortedByDate(r)
    ensures multiset(r) == multiset(s) + multiset{x}
    decreases |s|
  {
    if |s| == 0 then [x]
    else if x.date < s[0].date then [x] + s
    else
      var t := InsertByDate(s[1..], x);
      assert s == [s[0]] + s[1..];
      HeadBelowInsert(s, x, t);
      [s[0]] + t
  }

  lemma HeadBelowInsert(s: seq<Row>, x: Row, t: seq<Row>)
    requires SortedByDate(s) && |s| > 0 && s[0].date <= x.date
    requires multiset(t) == multiset(s[1..]) + multiset{x}
    ensures forall k :: 0 <= k < |t| ==> s[0].date <= t[k].date
  {
    forall k | 0 <= k < |t| ensures s[0].date <= t[k].date {
      assert t[k] in multiset(t);
      if t[k] != x {
        assert t[k] in multiset(s[1..]);
        var m :| 0 <= m < |s[1..]| && s[1..][m] == t[k];
        assert s[m + 1] == t[k];
      }
    }
  }

  /** `sort_values(by='Date')`: pandas promises ordered dates and the same
      rows, not the relative order of rows with equal dates. */
  method SortByDate(rows: seq<Row>) returns (sorted: seq<Row>)
    ensures SortedByDate(sorted)
    ensures multiset(sorted) == multiset(rows)
  {
    sorted := [];
    for i := 0 to |rows|
      invariant SortedByDate(sorted)
      invariant multiset(sorted) == multiset(rows[..i])
    {
      assert rows[..i + 1] == rows[..i] + [rows[i]];
      sorted := InsertByDate(sorted, rows[i]);
    }
    assert rows[..|rows|] == rows;
  }

  /** `dropna(subset=['City', 'Date'])` over the rows, one at a time. */
  method DropIncomplete(rows: seq<RawRow>, hasDatetime: bool, parse: string -> Option<Timestamp>) returns (kept: seq<Row>)
    ensures kept == Retained(rows, hasDatetime, parse)
  {
    kept := [];
    for i := 0 to |rows|
      invariant kept == Retained(rows[..i], hasDatetime, parse)
    {
      assert rows[..i + 1][..i] == rows[..i];
      match Keep(rows[i], hasDatetime, parse)
      case Some(row) =>
        kept := kept + [row];
      case None =>
    }
    assert rows[..|rows|] == rows;
  }

  /** Two lists with the same multiset have the same length and members. */
  lemma SameMultisetSameMembers(a: seq<Row>, b: seq<Row>)
    requires multiset(a) == multiset(b)
    ensures |a| == |b|
    ensures forall x :: x in a <==> x in b
  {
    assert |a| == |multiset(a)| == |multiset(b)| == |b|;
    forall x ensures x in a <==> x in b {
      assert x in a <==> x in multiset(a);
      assert x in b <==> x in multiset(b);
    }
  }

  /** The cleaning block: derive the date column, drop the rows without a city
      or a date, order by date. A column the block looks up but the frame
      lacks stops the script. */
  method Clean(t: RawTable, parse: string -> Option<Timestamp>) returns (r: Result<seq<Row>, CleanError>)
    ensures r == Failure(MissingColumn("Date")) <==> !t.hasDatetime && !t.hasDate
    ensures r == Failure(MissingColumn("City")) <==> (t.hasDatetime || t.hasDate) && !t.hasCity
    ensures r.Success? <==> (t.hasDatetime || t.hasDate) && t.hasCity
    ensures r.Success? ==> SortedByDate(r.value)
    ensures r.Success? ==> multiset(r.value) == multiset(Retained(t.rows, t.hasDatetime, parse))
    ensures r.Success? ==> |r.value| == |t.rows| - Dropped(t.rows, t.hasDatetime, parse)
    ensures r.Success? ==> forall x :: x in r.value <==>
      exists i :: 0 <= i < |t.rows| && Keep(t.rows[i], t.hasDatetime, parse) == Some(x)
  {
    if !t.hasDatetime && !t.hasDate {
      return Failure(MissingColumn("Date"));
    }
    if !t.hasCity {
      return Failure(MissingColumn("City"));
    }
    var kept := DropIncomplete(t.rows, t.hasDatetime, parse);
    var sorted := SortByDate(kept);
    RetainedExactly(t.rows, t.hasDatetime, parse);
    SameMultisetSameMembers(sorted, kept);
    return Success(sorted);
  }

  /** `sorted(df['City'].unique())`: the options of the city picker. */
  function CityOptions(rows: seq<Row>): (r: seq<City>)
    ensures TextOrder.StrictlyIncreasing(r)
    ensures forall c :: c in r <==> exists i :: 0 <= i < |rows| && rows[i].city == c
  {
    var column := CityColumn(rows);
    assert forall c :: c in column <==> exists i :: 0 <= i < |rows| && rows[i].city == c by {
      forall c ensures c in column <==> exists i :: 0 <= i < |rows| && rows[i].city == c {
        if c in column {
          var i :| 0 <= i < |column| && column[i] == c;
          assert rows[i].city == c;
        }
      }
    }
    TextOrder.SortedDistinct(column)
  }
}
