# Weather observation ingestion and storage, modelled in Dafny

This project models the ingestion-and-storage pipeline of a small weather
dashboard. A Weatherbit "current weather" payload is normalised into one flat
observation record (`parse_current`). The record is stored in the SQLite table
`weather_observations`, which is unique on `(city_name, country_code, ts_utc)`,
through an idempotent `INSERT OR IGNORE` (`insert_observation`), after
`CREATE TABLE IF NOT EXISTS` (`ensure_schema`). Observations are read back
either as the newest `limit` rows of a city (`fetch_latest`) or as the rows
between two optional inclusive epoch bounds, oldest first (`fetch_range`).

Modules, one per concern:

- `Wrappers` (wrappers.dfy): `Option` and `Result`.
- `JsonValue` (json_value.dfy): decoded JSON values as Python holds them (`None` is `Null`), `dict.get`, Python truthiness, and the Python exceptions the normaliser can raise.
- `PyInt` (py_int.dfy): Python's `int(x)` on those values. Ints pass through. Bools become 0 or 1. Floats are truncated toward zero. Strings are parsed as base-10 literals: surrounding space, `\t`, `\n`, `\v`, `\f` or `\r`, an optional sign, single underscores between digits, and at most 4300 digits.
- `Normalizer` (normalizer.dfy): the `Observation` record and `ParseCurrent`, with `ToPayload` as its inverse.
- `Rows` (rows.dfy): the identity of a row, the uniqueness invariant, and `ORDER BY ts_utc` as an insertion sort proved sorted, a permutation, and duplicate-free.
- `Queries` (queries.dfy): the eight-column projection, the WHERE selections, `LIMIT`, and the result of each read (`LatestView`, `RangeView`), with their ordering and bounds lemmas.
- `Store` (store.dfy): parameter binding, the NOT NULL and UNIQUE constraints under `INSERT OR IGNORE`, and the class `Database`. It holds whether the database file exists, whether the table exists, and the rows in insertion order. `Connect`, `EnsureSchema` and `Insert` change it. `FetchLatest` (a function) and `FetchRange` (a method that assembles the WHERE clause term by term, as the source does) read it. `DuplicateInsertScenario` is a client that inserts the same instant twice with different temperatures and reads back the first row.

The `or [{}]` fallback at app/save_to_sqlite.py:57 reads as if an empty
result list were tolerated. But `d["ts"]` at line 58 raises `KeyError('ts')`
on the empty dict that stands in for the first result, and the model follows
the code (`Normalizer.EmptyDataFails`).

Some SQLite behaviours are stated directly in the model:

- The `OR IGNORE` conflict clause also skips a row that violates NOT NULL. An insert with a missing `city_name` or `country_code` therefore returns false and adds nothing.
- A negative `LIMIT` means no limit.
- Python ints outside the signed 64-bit range cannot be bound.
- Lists and dicts cannot be bound.

## Model

| member | source | states |
|---|---|---|
| `PyInt.Truncate` | app/save_to_sqlite.py:58 | `int()` of a float truncates toward zero: the result has the float's sign and lies within 1 of it, on the zero side |
| `PyInt.RenderRoundTrip` | app/save_to_sqlite.py:58 | `int()` of the decimal text of any integer of at most 4300 digits, with any space, `\t`, `\n`, `\v`, `\f` or `\r` around it, gives that integer back |
| `PyInt.LongRenderRejected` | app/save_to_sqlite.py:58 | `int()` of the decimal text of an integer of more than 4300 digits raises `ValueError`, whatever whitespace surrounds it |
| `PyInt.ToInt` | app/save_to_sqlite.py:58 | `int()` keeps an int, maps a bool to 1 or 0, truncates a float toward zero, gives for a string exactly the value of its integer literal and `ValueError` when it is none, and gives `TypeError` for `None`, a list or a dict |
| `Normalizer.FirstRecord` | app/save_to_sqlite.py:57 | a missing or falsy `data` gives the empty dict; a non-empty list gives its first element, a non-empty string its first character, a non-empty dict `KeyError(0)`, and any other truthy value `TypeError`; it succeeds exactly in the first three cases |
| `Normalizer.ParseCurrent` | app/save_to_sqlite.py:55-77 | a success carries `int(ts)` and the city and country of the first result; a failure of the `data` lookup propagates; a first result that is not a dict is a `TypeError`, one without `ts` a `KeyError('ts')`; a `ts` that `int()` rejects gives `int()`'s own error; `AttributeError` arises exactly when `ts` converts and `weather` is present but not a dict |
| `Normalizer.ParseToPayload` | app/save_to_sqlite.py:55-77 | normalising the provider payload that carries an observation (one `data` element, provider keys, description nested under `weather`) returns exactly that observation |
| `Normalizer.EmptyDataFails` | app/save_to_sqlite.py:57-58 | a payload whose `data` is missing, empty or otherwise falsy fails with `KeyError('ts')`; it does not yield a null-filled record |
| `Normalizer.ParseSucceedsIff` | app/save_to_sqlite.py:57-76 | normalisation succeeds exactly when the first result is a dict with a `ts` that `int()` accepts and a `weather` that, if present, is a dict (a `None` weather raises `AttributeError`) |
| `Normalizer.ParseFieldMapping` | app/save_to_sqlite.py:59-77 | on success `ts_utc` is `int(ts)`, `tz` is `timezone` or "UTC" if that key is absent, `weather_description` is `weather.description` or `None`, and every other column is the value under its provider key (`temp`, `app_temp`, `rh`, `pres`, `wind_spd`, `vis`, …) or `None` |
| `Rows.SortBy` | app/read_from_sqlite.py:23 | the result is sorted by `ts_utc` in the requested direction, is a permutation of its input, and keeps identities distinct |
| `Queries.Matching` | app/read_from_sqlite.py:39-47 | a row is selected exactly when it is stored and has the requested city and country and satisfies the given bounds; the selection keeps identities distinct |
| `Queries.ProjectAll` | app/read_from_sqlite.py:20 | one result tuple per selected row, in the same order, each holding that row's city_name, country_code, ts_utc, tz, temp_c, feels_like_c, humidity and weather_description, column by column in SELECT order |
| `Queries.ProjectKeepsIdentity` | app/read_from_sqlite.py:20 | a result tuple keeps its row's identity columns, so among rows with distinct identities two rows give the same tuple only if they are the same row |
| `Queries.Take` | app/read_from_sqlite.py:24 | `LIMIT` keeps the first `limit` rows, or all of them when there are fewer or `limit` is negative; it never returns more than a non-negative limit |
| `Queries.LatestView` | app/read_from_sqlite.py:19-24 | the latest read returns `limit` records, or as many as match when fewer match or `limit` is negative, and every record has the requested city and country |
| `Queries.RangeView` | app/read_from_sqlite.py:36-48 | the range read returns one record per matching row, each of the requested city and country and within both given inclusive bounds |
| `Queries.Where` | app/read_from_sqlite.py:39-47 | a row is selected by a WHERE clause exactly when it is stored and satisfies every term, and no more rows come out than are stored |
| `Queries.RangeWhere` | app/read_from_sqlite.py:36-48 | the WHERE clause built term by term holds of a row exactly when its city and country match, `start <= ts_utc` when a start is given, and `ts_utc <= end` when an end is given |
| `Queries.WhereIsMatching` | app/read_from_sqlite.py:41-51 | executing a WHERE clause equivalent to the documented selection returns the same rows in the same order as that selection |
| `Queries.LatestOnlyMatching` | app/read_from_sqlite.py:22 | every row `fetch_latest` returns is a stored row of the requested city and country |
| `Queries.LatestDescending` | app/read_from_sqlite.py:23 | with distinct identities, `fetch_latest` results are strictly decreasing in `ts_utc` |
| `Queries.LatestSize` | app/read_from_sqlite.py:24 | `fetch_latest` returns `limit` rows, or all matching rows when there are fewer or `limit` is negative; it is empty exactly when `limit` is 0 or no stored row has that city and country |
| `Queries.LatestAreNewest` | app/read_from_sqlite.py:23-24 | a matching stored row that `fetch_latest` omits is older than every returned row, and then exactly `limit` rows were returned |
| `Queries.RangeComplete` | app/read_from_sqlite.py:39-47 | every stored row of the city and country whose `ts_utc` lies within the given inclusive bounds is returned by `fetch_range` |
| `Queries.RangeSound` | app/read_from_sqlite.py:42-48 | `fetch_range` returns one record per selected row, and every record has the requested city and country, satisfies both inclusive bounds, and comes from a stored row |
| `Queries.RangeAscending` | app/read_from_sqlite.py:48 | with distinct identities, `fetch_range` results are strictly increasing in `ts_utc`, so no row appears twice |
| `Queries.RangeUnbounded` | app/read_from_sqlite.py:42-47 | with both bounds absent, every stored row of the city and country is returned |
| `Queries.RangeBoundsInclusive` | app/read_from_sqlite.py:43-46 | a row whose `ts_utc` equals the start or the end bound is returned |
| `Store.BindValue` | app/save_to_sqlite.py:98 | a parameter binds exactly when it is not a list or dict and, if an int, fits 64 bits; bools bind as 0/1, other values as themselves; the failure names the parameter or is an overflow |
| `Store.FirstUnbindable` | app/save_to_sqlite.py:93-98 | the position of the first parameter that cannot be bound: every parameter before it binds, and the one there does not (or there is none) |
| `Store.BindAll` | app/save_to_sqlite.py:93-98 | binding parameters one after another succeeds exactly when each can be bound, storing each as itself or a bool as 0 or 1; otherwise it fails with the error of the first parameter that cannot be bound |
| `Store.BindRow` | app/save_to_sqlite.py:87-98 | the insert's parameters bind exactly when every column value is bindable; the bound row holds each column's value, with a bool as 0 or 1, and `ts_utc` unchanged; a failed bind reports the error of the first unbindable parameter in VALUES order |
| `Store.BindRowStorable` | app/save_to_sqlite.py:35-50 | a bound row holds only values the columns store unchanged, and is NULL in the identity columns exactly when the record was; a row of stored values binds to itself |
| `Store.FindKey` | app/save_to_sqlite.py:51 | the lookup on the UNIQUE identity finds a stored row with that identity, or reports that none exists |
| `Store.Admits` | app/save_to_sqlite.py:84-98 | `INSERT OR IGNORE` admits a row exactly when `city_name` and `country_code` are not NULL and no stored row has its identity |
| `Store.InsertOrIgnore` | app/save_to_sqlite.py:84-98 | the insert either appends the row or leaves the table as it is, never changes a stored row, and afterwards a row with non-NULL city and country has its identity in the table |
| `Store.InsertOutcome` | app/save_to_sqlite.py:84-100 | under `INSERT OR IGNORE` an admitted row is appended and otherwise the table is unchanged; existing rows are never overwritten; the count grows by one exactly when the row is admitted |
| `Store.InsertKeepsDistinct` | app/save_to_sqlite.py:51 | insertion preserves the invariant that no two stored rows share `(city_name, country_code, ts_utc)` |
| `Store.InsertIdempotent` | app/save_to_sqlite.py:27-29 | inserting the same row a second time is not admitted and leaves the table as after the first insert |
| `Store.DuplicateIgnored` | app/save_to_sqlite.py:84-88 | a second row with the identity of an admitted one is ignored even when its other columns differ; the first row stays |
| `Store.LatestOfOne` | app/read_from_sqlite.py:19-28 | a table holding one row answers a latest read with a positive limit for that row's city and country with exactly that row |
| `Store.Database.Connect` | app/save_to_sqlite.py:125 | connecting creates the database file and leaves the table and its rows as they were |
| `Store.Database.EnsureSchema` | app/save_to_sqlite.py:79-82 | after `CREATE TABLE IF NOT EXISTS` the table exists and every stored row is unchanged, so running it again is a no-op |
| `Store.Database.Insert` | app/save_to_sqlite.py:85-100 | fails with "no such table" before the schema exists, or with the binding error; otherwise returns whether the row was admitted, and the table becomes the insert-or-ignore result; it returns true exactly when the row count grew by one; the uniqueness and NOT NULL invariants are kept |
| `Store.Database.FetchLatest` | app/read_from_sqlite.py:9-28 | fails with "file not found" before the database file exists, with "no such table" before the schema exists, or on a limit that overflows; when the file, the table and a 64-bit limit are all there, it succeeds with the latest view of the stored rows |
| `Store.Database.FetchRange` | app/read_from_sqlite.py:30-52 | after building the WHERE clause: the same failures as the latest read (for an overflowing bound); otherwise returns the range view of the stored rows and changes nothing |

## Left out

- Provider client: `fetch_by_city`, `fetch_by_coords` and `get_api_key` in app/fetch_weather.py and fetch_weather.py make HTTP calls with a 20 s timeout, or exit the process. They are I/O and are not modelled. The payload is a parameter of the normaliser.
- `summarize`, the route handlers of app/api.py, app/plot_weather.py, scripts/demo_queries.py and `rows_to_df` are presentation: formatting, time-zone conversion, pandas and matplotlib. They are not modelled.
- The logging in `main` of app/save_to_sqlite.py is not modelled, because it only prints. The creation of the data directory is not modelled either, because it is environment.
- Connection open, commit and close are treated as environment. `Store.Database.Connect` models only the fact that connecting creates the database file.
- The `id` column and the database-assigned `created_at` timestamp are not modelled. No read returns them, and the table order of `rows` stands for the autoincrement order.
- Concurrency is not modelled. The store is a single sequential object, and writers are left to SQLite's locking.
- SQLite's column type affinity is not modelled. Values are stored as bound, so uniqueness and the WHERE comparisons use equality of the bound values. A number in a TEXT column is not converted to text, and an integer equal to a real is not treated as equal.
- SQLite leaves the order of rows with equal `ts_utc` unspecified. The model orders them by the insertion sort. Within one city and country the uniqueness invariant excludes such ties.
- `int()` on strings with non-ASCII digits or non-ASCII whitespace is not modelled. The digit limit is the default of 4300: a limit changed with `sys.set_int_max_str_digits`, and the absence of any limit in Python releases that predate it, are not modelled. Infinite or NaN floats are not modelled either. Floats are exact reals.
- Python error messages are not modelled. Errors are kinds only, and a `KeyError` carries its key.
- Strings that are not valid UTF-8 (lone surrogates) cannot be bound by sqlite3. The model binds every string.
- The default arguments `country="BR"`, `limit=10`, `start_utc=None` and `end_utc=None` (app/read_from_sqlite.py:15, 30-31) are not modelled: every argument is explicit. Nor is the `int()` coercion of the range bounds (lines 44 and 47): the bounds are already integers, as at every call site.
