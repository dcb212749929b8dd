/**
 * The observation store: the `weather_observations` table of
 * app/save_to_sqlite.py with its schema constraints, `ensure_schema`,
 * `insert_observation`, and the two reads of app/read_from_sqlite.py.
 */
module Store {
  import opened Wrappers
  import opened JsonValue
  import opened Normalizer
  import opened Rows
  import opened Queries

  const Int64Min: int := -0x8000_0000_0000_0000
  const Int64Max: int := 0x7FFF_FFFF_FFFF_FFFF

  /** SQLite's INTEGER storage class holds 64-bit signed integers. */
  predicate IsInt64(n: int)
  {
    Int64Min <= n <= Int64Max
  }

  /** The failures of the store operations. */
  datatype DbError =
    | FileNotFound                   // the database file does not exist
    | NoSuchTable                    // `weather_observations` has not been created
    | UnsupportedType(param: string) // a list or dict cannot be bound as a parameter
    | IntegerOverflow                // an int does not fit SQLite's 64-bit INTEGER

  /** A value that SQLite stores and reads back as the same Python value: NULL, INTEGER, REAL or TEXT. */
  predicate Storable(v: Json)
  {
    v.Null? || (v.Int? && IsInt64(v.i)) || v.Float? || v.Str?
  }

  /** A value sqlite3 can bind as a statement parameter. */
  predicate Bindable(v: Json)
  {
    !v.Arr? && !v.Obj? && (v.Int? ==> IsInt64(v.i))
  }

  /** Binding one statement parameter: a bool is bound as the integer 0 or 1. */
  function BindValue(v: Json, param: string): (r: Result<Json, DbError>)
    ensures r.Success? <==> Bindable(v)
    ensures r.Success? ==> Storable(r.value)
    ensures r.Success? && !v.Bool? ==> r.value == v
    ensures v.Bool? ==> r == Success(Int(if v.b then 1 else 0))
    ensures r.Failure? ==> r.error == if v.Int? then IntegerOverflow else UnsupportedType(param)
  {
    match v
    case Bool(b) => Success(Int(if b then 1 else 0))
    case Int(i) => if IsInt64(i) then Success(v) else Failure(IntegerOverflow)
    case Arr(_) => Failure(UnsupportedType(param))
    case Obj(_) => Failure(UnsupportedType(param))
    case _ => Success(v)
  }

  /** Every column of a stored row holds a storable value, and the NOT NULL identity columns are not NULL. */
  predicate IsStoredRow(r: Observation)
  {
    && r.cityName != Null && r.countryCode != Null
    && Storable(r.cityName) && Storable(r.countryCode) && Storable(r.lat) && Storable(r.lon)
    && IsInt64(r.tsUtc) && Storable(r.tz) && Storable(r.tempC) && Storable(r.feelsLikeC)
    && Storable(r.humidity) && Storable(r.pressure) && Storable(r.windSpeed) && Storable(r.windDir)
    && Storable(r.clouds) && Storable(r.visibilityKm) && Storable(r.weatherDescription)
  }

  predicate AllBindable(o: Observation)
  {
    && Bindable(o.cityName) && Bindable(o.countryCode) && Bindable(o.lat) && Bindable(o.lon)
    && IsInt64(o.tsUtc) && Bindable(o.tz) && Bindable(o.tempC) && Bindable(o.feelsLikeC)
    && Bindable(o.humidity) && Bindable(o.pressure) && Bindable(o.windSpeed) && Bindable(o.windDir)
    && Bindable(o.clouds) && Bindable(o.visibilityKm) && Bindable(o.weatherDescription)
  }

  /** The value a bindable parameter is stored as: a bool as the integer 0 or 1, anything else as itself. */
  function Bound(v: Json): (b: Json)
    ensures Bindable(v) ==> Storable(b)
    ensures b == Null <==> v == Null
    ensures Storable(v) ==> b == v
  {
    if v.Bool? then Int(if v.b then 1 else 0) else v
  }

  /** The INSERT's named parameters with the record's values, in the order of its VALUES list. */
  function Params(o: Observation): seq<(string, Json)>
  {
    [("city_name", o.cityName), ("country_code", o.countryCode), ("lat", o.lat), ("lon", o.lon),
     ("ts_utc", Int(o.tsUtc)), ("tz", o.tz), ("temp_c", o.tempC), ("feels_like_c", o.feelsLikeC),
     ("humidity", o.humidity), ("pressure", o.pressure), ("wind_speed", o.windSpeed),
     ("wind_dir", o.windDir), ("clouds", o.clouds), ("visibility_km", o.visibilityKm),
     ("weather_description", o.weatherDescription)]
  }

  /** The position of the first parameter that cannot be bound, or `|ps|` when every one can. */
  function FirstUnbindable(ps: seq<(string, Json)>): (i: nat)
    ensures i <= |ps|
    ensures forall j :: 0 <= j < i ==> Bindable(ps[j].1)
    ensures i < |ps| ==> !Bindable(ps[i].1)
  {
    if ps == [] then 0
    else if !Bindable(ps[0].1) then 0
    else 1 + FirstUnbindable(ps[1..])
  }

  /**
   * Binding parameters one after the other, as the statement does; the first
   * one that cannot be bound stops it with that parameter's error.
   */
  function BindAll(ps: seq<(string, Json)>): (r: Result<seq<Json>, DbError>)
    ensures r.Success? <==> FirstUnbindable(ps) == |ps|
    ensures r.Success? ==> |r.value| == |ps| && forall k :: 0 <= k < |ps| ==> r.value[k] == Bound(ps[k].1)
    ensures r.Failure? ==>
      var i := FirstUnbindable(ps);
      i < |ps| && r.error == BindValue(ps[i].1, ps[i].0).error
  {
    if ps == [] then Success([])
    else
      var v :- BindValue(ps[0].1, ps[0].0);
      var rest :- BindAll(ps[1..]);
      Success([v] + rest)
  }

  /** Every column of a record is bindable exactly when no parameter of the INSERT fails to bind. */
  lemma ParamsBindable(o: Observation)
    ensures AllBindable(o) <==> FirstUnbindable(Params(o)) == |Params(o)|
  {
    var ps := Params(o);
    var i := FirstUnbindable(ps);
    if i < |ps| {
      assert !Bindable(ps[i].1);
      if i == 0 {} else if i == 1 {} else if i == 2 {} else if i == 3 {} else if i == 4 {}
      else if i == 5 {} else if i == 6 {} else if i == 7 {} else if i == 8 {} else if i == 9 {}
      else if i == 10 {} else if i == 11 {} else if i == 12 {} else if i == 13 {} else {}
    } else {
      assert Bindable(ps[0].1) && Bindable(ps[1].1) && Bindable(ps[2].1) && Bindable(ps[3].1);
      assert Bindable(ps[4].1) && Bindable(ps[5].1) && Bindable(ps[6].1) && Bindable(ps[7].1);
      assert Bindable(ps[8].1) && Bindable(ps[9].1) && Bindable(ps[10].1) && Bindable(ps[11].1);
      assert Bindable(ps[12].1) && Bindable(ps[13].1) && Bindable(ps[14].1);
    }
  }

  /** Binding the named parameters of the INSERT, in the order they appear in its VALUES list. */
  function BindRow(o: Observation): (r: Result<Observation, DbError>)
    ensures r.Success? <==> AllBindable(o)
    ensures r.Success? ==> r.value == Observation(
      Bound(o.cityName), Bound(o.countryCode), Bound(o.lat), Bound(o.lon), o.tsUtc, Bound(o.tz),
      Bound(o.tempC), Bound(o.feelsLikeC), Bound(o.humidity), Bound(o.pressure), Bound(o.windSpeed),
      Bound(o.windDir), Bound(o.clouds), Bound(o.visibilityKm), Bound(o.weatherDescription))
    ensures r.Failure? ==>
      var ps := Params(o);
      var i := FirstUnbindable(ps);
      i < |ps| && r.error == BindValue(ps[i].1, ps[i].0).error
  {
    var ps := Params(o);
    ParamsBindable(o);
    var vs :- BindAll(ps);
    Success(Observation(vs[0], vs[1], vs[2], vs[3], o.tsUtc, vs[5], vs[6], vs[7], vs[8],
                        vs[9], vs[10], vs[11], vs[12], vs[13], vs[14]))
  }

  /** A bound row holds only storable values; a row already made of them binds to itself. */
  lemma BindRowStorable(o: Observation)
    ensures BindRow(o).Success? ==>
      var r := BindRow(o).value;
      && Storable(r.cityName) && Storable(r.countryCode) && Storable(r.lat) && Storable(r.lon)
      && IsInt64(r.tsUtc) && Storable(r.tz) && Storable(r.tempC) && Storable(r.feelsLikeC)
      && Storable(r.humidity) && Storable(r.pressure) && Storable(r.windSpeed) && Storable(r.windDir)
      && Storable(r.clouds) && Storable(r.visibilityKm) && Storable(r.weatherDescription)
      && (r.cityName == Null <==> o.cityName == Null)
      && (r.countryCode == Null <==> o.countryCode == Null)
    ensures IsStoredRow(o) ==> BindRow(o) == Success(o)
  {
    if BindRow(o).Success? {
      var r := BindRow(o).value;
      assert r.cityName == Bound(o.cityName) && r.countryCode == Bound(o.countryCode);
    }
    if IsStoredRow(o) {
      assert AllBindable(o);
      var r := BindRow(o).value;
      assert r.cityName == o.cityName && r.countryCode == o.countryCode && r.lat == o.lat && r.lon == o.lon;
      assert r.tz == o.tz && r.tempC == o.tempC && r.feelsLikeC == o.feelsLikeC && r.humidity == o.humidity;
      assert r.pressure == o.pressure && r.windSpeed == o.windSpeed && r.windDir == o.windDir;
      assert r.clouds == o.clouds && r.visibilityKm == o.visibilityKm && r.weatherDescription == o.weatherDescription;
    }
  }

  /** The position of the stored row with identity `k`, as the UNIQUE index finds it. */
  function FindKey(rows: seq<Observation>, k: Identity): (r: Option<nat>)
    ensures r.Some? ==> r.value < |rows| && KeyOf(rows[r.value]) == k
    ensures r.None? ==> forall i :: 0 <= i < |rows| ==> KeyOf(rows[i]) != k
  {
    if rows == [] then None
    else if KeyOf(rows[0]) == k then Some(0)
    else
      match FindKey(rows[1..], k)
      case Some(i) => Some(i + 1)
      case None => None
  }

  /**
   * `INSERT OR IGNORE` adds the row unless a constraint rejects it: a NULL
   * `city_name` or `country_code` (NOT NULL), or a stored row with the same
   * identity (UNIQUE). A rejected row is skipped without an error.
   */
  predicate Admits(rows: seq<Observation>, row: Observation)
    ensures Admits(rows, row) <==>
      row.cityName != Null && row.countryCode != Null && forall y :: y in rows ==> KeyOf(y) != KeyOf(row)
  {
    row.cityName != Null && row.countryCode != Null && FindKey(rows, KeyOf(row)).None?
  }

  /** The table after `INSERT OR IGNORE` of a bound row. */
  function InsertOrIgnore(rows: seq<Observation>, row: Observation): (r: seq<Observation>)
    ensures r == rows + [row] || r == rows
    ensures r[..|rows|] == rows
    ensures row.cityName != Null && row.countryCode != Null ==> exists y :: y in r && KeyOf(y) == KeyOf(row)
  {
    if Admits(rows, row) then rows + [row] else rows
  }

  /**
   * An admitted row is appended, and otherwise the table is unchanged.
   * Stored rows are never overwritten.
   */
  lemma InsertOutcome(rows: seq<Observation>, row: Observation)
    ensures var after := InsertOrIgnore(rows, row);
      && |after| == |rows| + (if Admits(rows, row) then 1 else 0)
      && after[..|rows|] == rows
      && (Admits(rows, row) ==> after[|rows|] == row)
  {
  }

  /** Insertion keeps the identities of the table distinct. */
  lemma InsertKeepsDistinct(rows: seq<Observation>, row: Observation)
    requires DistinctKeys(rows)
    ensures DistinctKeys(InsertOrIgnore(rows, row))
  {
    if Admits(rows, row) {
      var after := rows + [row];
      forall i, j | 0 <= i < j < |after| ensures KeyOf(after[i]) != KeyOf(after[j]) {
        if j < |rows| {
          assert after[i] == rows[i] && after[j] == rows[j];
        } else {
          assert after[i] == rows[i] && after[j] == row;
        }
      }
    }
  }

  /** Inserting the same row again is a no-op: it is not admitted a second time. */
  lemma InsertIdempotent(rows: seq<Observation>, row: Observation)
    ensures !Admits(InsertOrIgnore(rows, row), row)
    ensures InsertOrIgnore(InsertOrIgnore(rows, row), row) == InsertOrIgnore(rows, row)
  {
    var after := InsertOrIgnore(rows, row);
    if Admits(rows, row) {
      assert KeyOf(after[|rows|]) == KeyOf(row);
    } else if row.cityName != Null && row.countryCode != Null {
      var i := FindKey(rows, KeyOf(row)).value;
      assert KeyOf(after[i]) == KeyOf(row);
    }
  }

  /**
   * A second row with the identity of an admitted one is ignored even when its
   * other columns differ: the first row stays as it was.
   */
  lemma DuplicateIgnored(rows: seq<Observation>, first: Observation, second: Observation)
    requires Admits(rows, first) && KeyOf(second) == KeyOf(first)
    ensures !Admits(InsertOrIgnore(rows, first), second)
    ensures InsertOrIgnore(InsertOrIgnore(rows, first), second) == rows + [first]
  {
    var after := rows + [first];
    assert KeyOf(after[|rows|]) == KeyOf(second);
  }

  /**
   * The database as the pipeline sees it: whether the database file exists,
   * whether the `weather_observations` table exists, and its rows in
   * insertion order.
   */
  class Database {
    var fileExists: bool
    var hasTable: bool
    var rows: seq<Observation>

    ghost predicate Valid()
      reads this
    {
      && (!fileExists ==> !hasTable)
      && (!hasTable ==> rows == [])
      && DistinctKeys(rows)
      && forall i :: 0 <= i < |rows| ==> IsStoredRow(rows[i])
    }

    /** No database file yet. */
    constructor ()
      ensures Valid() && !fileExists && !hasTable && rows == []
    {
      fileExists, hasTable, rows := false, false, [];
    }

    /** `sqlite3.connect(DB_PATH)` creates the database file when it is missing. */
    method Connect()
      requires Valid()
      modifies this
      ensures Valid() && fileExists && hasTable == old(hasTable) && rows == old(rows)
    {
      fileExists := true;
    }

    /**
     * `ensure_schema`: `CREATE TABLE IF NOT EXISTS`. A missing table is created
     * empty; an existing one keeps all its rows, so a second call changes nothing.
     */
    method EnsureSchema()
      requires Valid() && fileExists
      modifies this
      ensures Valid() && fileExists && hasTable && rows == old(rows)
    {
      hasTable := true;
    }

    /**
     * `insert_observation`: binds the row's parameters, then runs
     * `INSERT OR IGNORE`; the result says whether a row was added.
     */
    method Insert(o: Observation) returns (res: Result<bool, DbError>)
      requires Valid() && fileExists
      modifies this
      ensures Valid() && fileExists && hasTable == old(hasTable)
      ensures !hasTable ==> res == Failure(NoSuchTable) && rows == old(rows)
      ensures hasTable && BindRow(o).Failure? ==> res == Failure(BindRow(o).error) && rows == old(rows)
      ensures hasTable && BindRow(o).Success? ==>
        && res == Success(Admits(old(rows), BindRow(o).value))
        && rows == InsertOrIgnore(old(rows), BindRow(o).value)
      ensures res.Success? ==> (res.value <==> |rows| == |old(rows)| + 1)
      ensures res.Success? && !res.value ==> rows == old(rows)
    {
      if !hasTable {
        return Failure(NoSuchTable);
      }
      var bound := BindRow(o);
      if bound.Failure? {
        return Failure(bound.error);
      }
      var row := bound.value;
      BindRowStorable(o);
      InsertKeepsDistinct(rows, row);
      InsertOutcome(rows, row);
      res := Success(Admits(rows, row));
      rows := InsertOrIgnore(rows, row);
    }

    /**
     * `fetch_latest(city, country, limit)`: the database file must exist and
     * hold the table; the LIMIT parameter must fit a 64-bit INTEGER.
     */
    function FetchLatest(city: string, country: string, limit: int): (r: Result<seq<Record>, DbError>)
      reads this
      ensures !fileExists ==> r == Failure(FileNotFound)
      ensures fileExists && !hasTable ==> r == Failure(NoSuchTable)
      ensures fileExists && hasTable && !IsInt64(limit) ==> r == Failure(IntegerOverflow)
      ensures r.Success? ==> fileExists && hasTable && r.value == LatestView(rows, city, country, limit)
      ensures fileExists && hasTable && IsInt64(limit) ==> r == Success(LatestView(rows, city, country, limit))
    {
      if !fileExists then Failure(FileNotFound)
      else if !hasTable then Failure(NoSuchTable)
      else if !IsInt64(limit) then Failure(IntegerOverflow)
      else Success(LatestView(rows, city, country, limit))
    }

    /**
     * `fetch_range(city, country, start_utc, end_utc)`: assembles the WHERE
     * clause term by term, then runs it with `ORDER BY ts_utc ASC`.
     */
    method FetchRange(city: string, country: string, start: Option<int>, end: Option<int>)
      returns (res: Result<seq<Record>, DbError>)
      ensures !fileExists ==> res == Failure(FileNotFound)
      ensures fileExists && !hasTable ==> res == Failure(NoSuchTable)
      ensures fileExists && hasTable ==>
        res == if (start.Some? ==> IsInt64(start.value)) && (end.Some? ==> IsInt64(end.value))
               then Success(RangeView(rows, city, country, start, end))
               else Failure(IntegerOverflow)
    {
      var conds := RangeWhere(city, country, start, end);
      if !fileExists {
        return Failure(FileNotFound);
      }
      if !hasTable {
        return Failure(NoSuchTable);
      }
      if (start.Some? && !IsInt64(start.value)) || (end.Some? && !IsInt64(end.value)) {
        return Failure(IntegerOverflow);
      }
      WhereIsMatching(rows, conds, city, country, start, end);
      res := Success(ProjectAll(SortBy(Where(rows, conds), Asc)));
    }
  }

  /** A table of one row answers a positive-limit latest read with that row. */
  lemma LatestOfOne(row: Observation, limit: int)
    requires row.cityName.Str? && row.countryCode.Str? && limit > 0
    ensures LatestView([row], row.cityName.s, row.countryCode.s, limit) == [Project(row)]
  {
    var m := Matching([row], row.cityName.s, row.countryCode.s, None, None);
    assert m == [row] by {
      assert InRange(row, row.cityName.s, row.countryCode.s, None, None);
      assert [row][1..] == [];
      assert Matching([], row.cityName.s, row.countryCode.s, None, None) == [];
    }
    assert SortBy([row], Desc) == [row] by {
      assert [row][1..] == [];
    }
  }

  /**
   * Collecting the same instant twice: the second insert, with a different
   * temperature, reports `false`, and the latest read returns the first row.
   */
  method DuplicateInsertScenario()
  {
    var db := new Database();
    db.Connect();
    db.EnsureSchema();
    var first := Observation(
      Str("Rio de Janeiro"), Str("BR"), Null, Null, 1700000000, Str("America/Sao_Paulo"),
      Float(25.0), Null, Null, Null, Null, Null, Null, Null, Null);
    var second := first.(tempC := Float(30.0));
    BindRowStorable(first);
    BindRowStorable(second);
    var added := db.Insert(first);
    assert added == Success(true);
    added := db.Insert(second);
    assert added == Success(false);
    assert db.rows == [first];
    LatestOfOne(first, 1);
    var latest := db.FetchLatest("Rio de Janeiro", "BR", 1);
    assert latest == Success([Project(first)]);
  }
}
