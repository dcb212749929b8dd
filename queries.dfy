/**
 * The two read queries of app/read_from_sqlite.py, as selections over the
 * stored rows: `WHERE city_name = ? AND country_code = ?` (with optional
 * inclusive bounds on `ts_utc`), `ORDER BY ts_utc`, `LIMIT ?`, and the
 * projection onto eight columns.
 */
module Queries {
  import opened Wrappers
  import opened JsonValue
  import opened Normalizer
  import opened Rows

  /**
   * One result tuple: `city_name, country_code, ts_utc, tz, temp_c,
   * feels_like_c, humidity, weather_description`, in this order.
   */
  datatype Record = Record(
    cityName: Json,
    countryCode: Json,
    tsUtc: int,
    tz: Json,
    tempC: Json,
    feelsLikeC: Json,
    humidity: Json,
    weatherDescription: Json)

  function Project(r: Observation): Record
  {
    Record(r.cityName, r.countryCode, r.tsUtc, r.tz, r.tempC, r.feelsLikeC, r.humidity, r.weatherDescription)
  }

  /** The result tuples of the selected rows: one per row, keeping the eight SELECT columns in order. */
  function ProjectAll(s: seq<Observation>): (r: seq<Record>)
    ensures |r| == |s|
    ensures forall k :: 0 <= k < |s| ==>
      && r[k].cityName == s[k].cityName
      && r[k].countryCode == s[k].countryCode
      && r[k].tsUtc == s[k].tsUtc
      && r[k].tz == s[k].tz
      && r[k].tempC == s[k].tempC
      && r[k].feelsLikeC == s[k].feelsLikeC
      && r[k].humidity == s[k].humidity
      && r[k].weatherDescription == s[k].weatherDescription
  {
    seq(|s|, k requires 0 <= k < |s| => Project(s[k]))
  }

  /**
   * A result tuple keeps its row's identity, so among rows with distinct
   * identities no two give the same tuple.
   */
  lemma ProjectKeepsIdentity(rows: seq<Observation>, a: Observation, b: Observation)
    ensures Project(a).cityName == a.cityName && Project(a).countryCode == a.countryCode && Project(a).tsUtc == a.tsUtc
    ensures Project(a) == Project(b) ==> KeyOf(a) == KeyOf(b)
    ensures DistinctKeys(rows) && a in rows && b in rows && Project(a) == Project(b) ==> a == b
  {
    if DistinctKeys(rows) && a in rows && b in rows && Project(a) == Project(b) {
      var i :| 0 <= i < |rows| && rows[i] == a;
      var j :| 0 <= j < |rows| && rows[j] == b;
      assert KeyOf(rows[i]) == KeyOf(rows[j]);
      assert i == j;
    }
  }

  /**
   * The documented selection: the row belongs to `city`/`country`, and its
   * `ts_utc` lies within the bounds that are given, both inclusive.
   */
  predicate InRange(r: Observation, city: string, country: string, start: Option<int>, end: Option<int>)
  {
    && r.cityName == Str(city)
    && r.countryCode == Str(country)
    && (start.Some? ==> start.value <= r.tsUtc)
    && (end.Some? ==> r.tsUtc <= end.value)
  }

  /** The stored rows `InRange` selects, in table order. */
  function Matching(rows: seq<Observation>, city: string, country: string, start: Option<int>, end: Option<int>)
    : (r: seq<Observation>)
    ensures forall x :: x in r <==> x in rows && InRange(x, city, country, start, end)
    ensures DistinctKeys(rows) ==> DistinctKeys(r)
  {
    if rows == [] then []
    else
      var rest := Matching(rows[1..], city, country, start, end);
      assert rows == [rows[0]] + rows[1..];
      HeadFacts(rows, Asc);
      if InRange(rows[0], city, country, start, end) then
        assert DistinctKeys(rows) ==> DistinctKeys([rows[0]] + rest) by {
          if DistinctKeys(rows) {
            ConsDistinct(rows[0], rest);
          }
        }
        [rows[0]] + rest
      else
        rest
  }

  /** `LIMIT limit`; SQLite reads a negative limit as no limit at all. */
  function Take(s: seq<Observation>, limit: int): (r: seq<Observation>)
    ensures |r| == (if 0 <= limit < |s| then limit else |s|)
    ensures r == s[..|r|]
    ensures limit < 0 ==> r == s
    ensures 0 <= limit ==> |r| <= limit
  {
    if 0 <= limit < |s| then s[..limit] else s
  }

  /** A sorted selection has the selection's length and only its rows. */
  lemma SortedFromSelection(m: seq<Observation>, ord: Order, s: seq<Observation>)
    requires s == SortBy(m, ord)
    ensures |s| == |m|
    ensures forall k :: 0 <= k < |s| ==> s[k] in m
  {
    assert |multiset(s)| == |multiset(m)|;
    forall k | 0 <= k < |s| ensures s[k] in m {
      assert s[k] in multiset(m);
    }
  }

  /**
   * The result of `fetch_latest(city, country, limit)` on the stored rows: at
   * most `limit` records (all of them when `limit` is negative), each of the
   * requested city and country.
   */
  function LatestView(rows: seq<Observation>, city: string, country: string, limit: int): (r: seq<Record>)
    ensures var n := |Matching(rows, city, country, None, None)|;
      |r| == if 0 <= limit < n then limit else n
    ensures forall k :: 0 <= k < |r| ==> r[k].cityName == Str(city) && r[k].countryCode == Str(country)
  {
    var m := Matching(rows, city, country, None, None);
    var s := SortBy(m, Desc);
    SortedFromSelection(m, Desc, s);
    ProjectAll(Take(s, limit))
  }

  /**
   * The result of `fetch_range(city, country, start_utc, end_utc)` on the
   * stored rows: one record per selected row, each of the requested city and
   * country and within both inclusive bounds.
   */
  function RangeView(rows: seq<Observation>, city: string, country: string, start: Option<int>, end: Option<int>)
    : (r: seq<Record>)
    ensures |r| == |Matching(rows, city, country, start, end)|
    ensures forall k :: 0 <= k < |r| ==>
      && r[k].cityName == Str(city)
      && r[k].countryCode == Str(country)
      && (start.Some? ==> start.value <= r[k].tsUtc)
      && (end.Some? ==> r[k].tsUtc <= end.value)
  {
    var m := Matching(rows, city, country, start, end);
    var s := SortBy(m, Asc);
    SortedFromSelection(m, Asc, s);
    ProjectAll(s)
  }

  /** One `AND`-ed term of the WHERE clause `fetch_range` assembles. */
  datatype Cond =
    | CityIs(city: string)      // city_name = ?
    | CountryIs(country: string) // country_code = ?
    | TsAtLeast(bound: int)     // ts_utc >= ?
    | TsAtMost(bound: int)      // ts_utc <= ?

  predicate Holds(c: Cond, r: Observation)
  {
    match c
    case CityIs(city) => r.cityName == Str(city)
    case CountryIs(country) => r.countryCode == Str(country)
    case TsAtLeast(bound) => bound <= r.tsUtc
    case TsAtMost(bound) => r.tsUtc <= bound
  }

  predicate HoldsAll(conds: seq<Cond>, r: Observation)
  {
    forall i :: 0 <= i < |conds| ==> Holds(conds[i], r)
  }

  /** `SELECT ... WHERE conds`: the rows satisfying every term, in table order. */
  function Where(rows: seq<Observation>, conds: seq<Cond>): (r: seq<Observation>)
    ensures |r| <= |rows|
    ensures forall x :: x in r <==> x in rows && HoldsAll(conds, x)
  {
    if rows == [] then []
    else if HoldsAll(conds, rows[0]) then [rows[0]] + Where(rows[1..], conds)
    else Where(rows[1..], conds)
  }

  /**
   * `fetch_range`'s query text: the city and country terms, then a lower
   * bound term when `start` is given and an upper bound term when `end` is
   * given. The clause it builds holds of exactly the rows `InRange` selects.
   */
  method RangeWhere(city: string, country: string, start: Option<int>, end: Option<int>)
    returns (conds: seq<Cond>)
    ensures forall x :: HoldsAll(conds, x) <==> InRange(x, city, country, start, end)
  {
    conds := [CityIs(city), CountryIs(country)];
    if start.Some? {
      conds := conds + [TsAtLeast(start.value)];
    }
    if end.Some? {
      conds := conds + [TsAtMost(end.value)];
    }
    forall x ensures HoldsAll(conds, x) <==> InRange(x, city, country, start, end) {
      assert Holds(conds[0], x) && Holds(conds[1], x) <==> x.cityName == Str(city) && x.countryCode == Str(country);
      if start.Some? {
        assert conds[2] == TsAtLeast(start.value);
      }
      if end.Some? {
        assert conds[|conds| - 1] == TsAtMost(end.value);
      }
    }
  }

  /** A WHERE clause that holds of exactly the `InRange` rows selects what `Matching` selects. */
  lemma {:induction false} WhereIsMatching(rows: seq<Observation>, conds: seq<Cond>,
                                           city: string, country: string, start: Option<int>, end: Option<int>)
    requires forall x :: HoldsAll(conds, x) <==> InRange(x, city, country, start, end)
    ensures Where(rows, conds) == Matching(rows, city, country, start, end)
  {
    if rows != [] {
      WhereIsMatching(rows[1..], conds, city, country, start, end);
    }
  }

  /** `fetch_latest` returns only rows of the requested city and country, each a stored row. */
  lemma LatestOnlyMatching(rows: seq<Observation>, city: string, country: string, limit: int)
    ensures var r := LatestView(rows, city, country, limit);
      forall k :: 0 <= k < |r| ==>
        && r[k].cityName == Str(city)
        && r[k].countryCode == Str(country)
        && exists row :: row in rows && Project(row) == r[k]
  {
    var m := Matching(rows, city, country, None, None);
    var s := SortBy(m, Desc);
    var t := Take(s, limit);
    forall k | 0 <= k < |t| ensures t[k] in rows && InRange(t[k], city, country, None, None) {
      assert t[k] == s[k];
      assert s[k] in multiset(m);
    }
  }

  /** Sorting rows that all belong to one city and country and have distinct identities orders them strictly. */
  lemma SortedSelection(m: seq<Observation>, city: string, country: string, ord: Order, s: seq<Observation>)
    requires DistinctKeys(m)
    requires forall x :: x in m ==> x.cityName == Str(city) && x.countryCode == Str(country)
    requires s == SortBy(m, ord)
    ensures ord == Asc ==> forall i, j :: 0 <= i < j < |s| ==> s[i].tsUtc < s[j].tsUtc
    ensures ord == Desc ==> forall i, j :: 0 <= i < j < |s| ==> s[i].tsUtc > s[j].tsUtc
  {
    forall k | 0 <= k < |s| ensures s[k].cityName == Str(city) && s[k].countryCode == Str(country) {
      assert s[k] in multiset(m);
    }
    StrictlySorted(s, ord, Str(city), Str(country));
  }

  /** The sorted `Matching` selection is strictly ordered. */
  lemma SortedMatching(rows: seq<Observation>, city: string, country: string,
                       start: Option<int>, end: Option<int>, ord: Order, s: seq<Observation>)
    requires DistinctKeys(rows)
    requires s == SortBy(Matching(rows, city, country, start, end), ord)
    ensures ord == Asc ==> forall i, j :: 0 <= i < j < |s| ==> s[i].tsUtc < s[j].tsUtc
    ensures ord == Desc ==> forall i, j :: 0 <= i < j < |s| ==> s[i].tsUtc > s[j].tsUtc
  {
    var m := Matching(rows, city, country, start, end);
    assert forall x :: x in m ==> InRange(x, city, country, start, end);
    SortedSelection(m, city, country, ord, s);
  }

  /**
   * `fetch_latest` results are in strictly decreasing `ts_utc` order:
   * `ORDER BY ts_utc DESC`, with no ties because identities are unique.
   */
  lemma LatestDescending(rows: seq<Observation>, city: string, country: string, limit: int)
    requires DistinctKeys(rows)
    ensures var r := LatestView(rows, city, country, limit);
      forall i, j :: 0 <= i < j < |r| ==> r[i].tsUtc > r[j].tsUtc
  {
    var s := SortBy(Matching(rows, city, country, None, None), Desc);
    var r := ProjectAll(Take(s, limit));
    SortedMatching(rows, city, country, None, None, Desc, s);
    forall i, j | 0 <= i < j < |r| ensures r[i].tsUtc > r[j].tsUtc {
      assert r[i].tsUtc == s[i].tsUtc && r[j].tsUtc == s[j].tsUtc;
    }
  }

  /**
   * `fetch_latest` returns `limit` rows, or every matching row when there are
   * fewer (or when `limit` is negative); it is empty exactly when `limit` is 0
   * or no stored row belongs to the city and country.
   */
  lemma LatestSize(rows: seq<Observation>, city: string, country: string, limit: int)
    ensures var n := |Matching(rows, city, country, None, None)|;
      |LatestView(rows, city, country, limit)| == if 0 <= limit < n then limit else n
    ensures LatestView(rows, city, country, limit) == [] <==>
      (|| limit == 0
       || forall row :: row in rows ==> !(row.cityName == Str(city) && row.countryCode == Str(country)))
  {
    var m := Matching(rows, city, country, None, None);
    var s := SortBy(m, Desc);
    assert |s| == |m| by {
      assert |multiset(s)| == |multiset(m)|;
    }
    assert m == [] <==> forall row :: row in rows ==> !InRange(row, city, country, None, None) by {
      if m != [] {
        assert m[0] in m;
      }
    }
  }

  /**
   * A matching stored row that `fetch_latest` leaves out is older than every
   * row it returns, and then the limit is reached: the result is the `limit`
   * newest observations.
   */
  lemma LatestAreNewest(rows: seq<Observation>, city: string, country: string, limit: int)
    requires DistinctKeys(rows)
    ensures var r := LatestView(rows, city, country, limit);
      forall row :: row in rows && row.cityName == Str(city) && row.countryCode == Str(country) && Project(row) !in r ==>
        |r| == limit && forall k :: 0 <= k < |r| ==> r[k].tsUtc > row.tsUtc
  {
    var m := Matching(rows, city, country, None, None);
    var s := SortBy(m, Desc);
    var r := ProjectAll(Take(s, limit));
    SortedMatching(rows, city, country, None, None, Desc, s);
    forall row | row in rows && row.cityName == Str(city) && row.countryCode == Str(country) && Project(row) !in r
      ensures |r| == limit && forall k :: 0 <= k < |r| ==> r[k].tsUtc > row.tsUtc
    {
      assert InRange(row, city, country, None, None);
      assert row in m;
      assert row in multiset(m);
      assert row in multiset(s);
      var j :| 0 <= j < |s| && s[j] == row;
      LeftOutIsOlder(s, limit, j);
    }
  }

  /** In a strictly decreasing sequence, a position the limit cuts off is older than every position kept. */
  lemma LeftOutIsOlder(s: seq<Observation>, limit: int, j: nat)
    requires forall i, j :: 0 <= i < j < |s| ==> s[i].tsUtc > s[j].tsUtc
    requires j < |s| && Project(s[j]) !in ProjectAll(Take(s, limit))
    ensures var r := ProjectAll(Take(s, limit));
      |r| == limit && forall k :: 0 <= k < |r| ==> r[k].tsUtc > s[j].tsUtc
  {
    var r := ProjectAll(Take(s, limit));
    assert |r| <= j;
    forall k | 0 <= k < |r| ensures r[k].tsUtc > s[j].tsUtc {
      assert r[k].tsUtc == s[k].tsUtc;
    }
  }

  /** Every stored row of the city and country within both inclusive bounds is in the `fetch_range` result. */
  lemma RangeComplete(rows: seq<Observation>, city: string, country: string, start: Option<int>, end: Option<int>)
    ensures forall row :: row in rows && InRange(row, city, country, start, end) ==>
      Project(row) in RangeView(rows, city, country, start, end)
  {
    var s := SortBy(Matching(rows, city, country, start, end), Asc);
    var r := ProjectAll(s);
    forall row | row in rows && InRange(row, city, country, start, end) ensures Project(row) in r {
      assert row in multiset(s);
      var j :| 0 <= j < |s| && s[j] == row;
      assert r[j] == Project(row);
    }
  }

  /**
   * `fetch_range` returns one record per selected row, and each record comes
   * from a stored row of the city and country within both inclusive bounds.
   */
  lemma RangeSound(rows: seq<Observation>, city: string, country: string, start: Option<int>, end: Option<int>)
    ensures var r := RangeView(rows, city, country, start, end);
      && |r| == |Matching(rows, city, country, start, end)|
      && forall k :: 0 <= k < |r| ==>
           && r[k].cityName == Str(city)
           && r[k].countryCode == Str(country)
           && (start.Some? ==> start.value <= r[k].tsUtc)
           && (end.Some? ==> r[k].tsUtc <= end.value)
           && exists row :: row in rows && Project(row) == r[k]
  {
    var m := Matching(rows, city, country, start, end);
    var s := SortBy(m, Asc);
    assert |s| == |m| by {
      assert |multiset(s)| == |multiset(m)|;
    }
    forall k | 0 <= k < |s| ensures s[k] in rows && InRange(s[k], city, country, start, end) {
      assert s[k] in multiset(m);
    }
  }

  /** `fetch_range` results are in strictly increasing `ts_utc` order. */
  lemma RangeAscending(rows: seq<Observation>, city: string, country: string, start: Option<int>, end: Option<int>)
    requires DistinctKeys(rows)
    ensures var r := RangeView(rows, city, country, start, end);
      forall i, j :: 0 <= i < j < |r| ==> r[i].tsUtc < r[j].tsUtc
  {
    var s := SortBy(Matching(rows, city, country, start, end), Asc);
    var r := ProjectAll(s);
    SortedMatching(rows, city, country, start, end, Asc, s);
    forall i, j | 0 <= i < j < |r| ensures r[i].tsUtc < r[j].tsUtc {
      assert r[i].tsUtc == s[i].tsUtc && r[j].tsUtc == s[j].tsUtc;
    }
  }

  /** Without bounds, `fetch_range` returns every stored row of the city and country. */
  lemma RangeUnbounded(rows: seq<Observation>, city: string, country: string)
    ensures forall row :: row in rows && row.cityName == Str(city) && row.countryCode == Str(country) ==>
      Project(row) in RangeView(rows, city, country, None, None)
  {
    RangeComplete(rows, city, country, None, None);
    forall row | row in rows && row.cityName == Str(city) && row.countryCode == Str(country)
      ensures Project(row) in RangeView(rows, city, country, None, None)
    {
      assert InRange(row, city, country, None, None);
    }
  }

  /** A row exactly at either bound is included: both bounds are inclusive. */
  lemma RangeBoundsInclusive(rows: seq<Observation>, row: Observation, city: string, country: string, lo: int, hi: int)
    requires row in rows && row.cityName == Str(city) && row.countryCode == Str(country)
    requires lo <= hi && (row.tsUtc == lo || row.tsUtc == hi)
    ensures Project(row) in RangeView(rows, city, country, Some(lo), Some(hi))
  {
    RangeComplete(rows, city, country, Some(lo), Some(hi));
    assert InRange(row, city, country, Some(lo), Some(hi));
  }
}
