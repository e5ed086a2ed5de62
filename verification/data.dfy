/** The tables the dashboard works on: the rows read from `city_day.csv` and
    the cleaned, typed rows every later step consumes. */
module Data {

  datatype Option<T> = None | Some(value: T)

  datatype Result<T, E> = Success(value: T) | Failure(error: E)

  type City = string

  /** A point in time; pandas `Timestamp`s are totally ordered, and so are these. */
  type Timestamp = int

  /** One row as read from the file. A cell that is empty in the file is `None`;
      `datetime` and `date` are the raw texts of the `Datetime` and `Date`
      columns, and `aqi` the `AQI` cell. */
  datatype RawRow = RawRow(
    city: Option<City>,
    datetime: Option<string>,
    date: Option<string>,
    aqi: Option<real>)

  /** The loaded frame: which of the columns the cleaning step looks up exist,
      and the rows. */
  datatype RawTable = RawTable(
    hasCity: bool,
    hasDatetime: bool,
    hasDate: bool,
    rows: seq<RawRow>)

  /** A cleaned row: city and date are known; the AQI may be missing (NaN). */
  datatype Row = Row(city: City, date: Timestamp, aqi: Option<real>)

  /** The lookup of a column the frame does not have (`KeyError` in pandas). */
  datatype CleanError = MissingColumn(name: string)

  predicate SortedByDate(rows: seq<Row>) {
    forall i, j :: 0 <= i < j < |rows| ==> rows[i].date <= rows[j].date
  }

  /** The `City` column of a cleaned table. */
  function CityColumn(rows: seq<Row>): (r: seq<City>)
    ensures |r| == |rows|
    ensures forall i :: 0 <= i < |rows| ==> r[i] == rows[i].city
  {
    seq(|rows|, i requires 0 <= i < |rows| => rows[i].city)
  }

  /** `a` is `b` with some elements left out and the others in their order. */
  predicate SubsequenceOf<T(==)>(a: seq<T>, b: seq<T>)
    decreases |b|
  {
    if |a| == 0 then true
    else if |b| == 0 then false
    else (a[0] == b[0] && SubsequenceOf(a[1..], b[1..])) || SubsequenceOf(a, b[1..])
  }

  /** Leaving out one more element at the end keeps a subsequence. */
  lemma {:induction false} SubsequenceExtend<T>(a: seq<T>, b: seq<T>, x: T)
    requires SubsequenceOf(a, b)
    ensures SubsequenceOf(a, b + [x])
    decreases |b|
  {
    if |a| > 0 {
      assert (b + [x])[1..] == b[1..] + [x];
      if a[0] == b[0] && SubsequenceOf(a[1..], b[1..]) {
        SubsequenceExtend(a[1..], b[1..], x);
      } else {
        SubsequenceExtend(a, b[1..], x);
      }
    }
  }

  /** Keeping the same element at the end of both keeps a subsequence. */
  lemma {:induction false} SubsequenceSnoc<T>(a: seq<T>, b: seq<T>, x: T)
    requires SubsequenceOf(a, b)
    ensures SubsequenceOf(a + [x], b + [x])
    decreases |b|
  {
    assert (a + [x])[0] == if |a| == 0 then x else a[0];
    if |b| == 0 {
      assert a == [];
      assert [x][1..] == [];
    } else {
      assert (b + [x])[1..] == b[1..] + [x];
      if |a| == 0 {
        SubsequenceSnoc(a, b[1..], x);
      } else {
        assert (a + [x])[1..] == a[1..] + [x];
        if a[0] == b[0] && SubsequenceOf(a[1..], b[1..]) {
          SubsequenceSnoc(a[1..], b[1..], x);
        } else {
          SubsequenceSnoc(a, b[1..], x);
        }
      }
    }
  }
}
