/**
 * Stored rows of `weather_observations`: their identity, the uniqueness
 * invariant `UNIQUE(city_name, country_code, ts_utc)`, and the ordering that
 * `ORDER BY ts_utc ASC` / `ORDER BY ts_utc DESC` produce.
 */
module Rows {
  import opened JsonValue
  import opened Normalizer

  /** The identity of a row: the columns of the table's UNIQUE constraint. */
  datatype Identity = Identity(city: Json, country: Json, ts: int)

  function KeyOf(r: Observation): Identity
  {
    Identity(r.cityName, r.countryCode, r.tsUtc)
  }

  /** No two rows share an identity. */
  predicate DistinctKeys(s: seq<Observation>)
  {
    forall i, j :: 0 <= i < j < |s| ==> KeyOf(s[i]) != KeyOf(s[j])
  }

  /** No row of `s` has the identity of `x`. */
  predicate KeyAbsent(x: Observation, s: seq<Observation>)
  {
    forall y :: y in s ==> KeyOf(y) != KeyOf(x)
  }

  datatype Order = Asc | Desc

  /** `a` may come before `b` under `ORDER BY ts_utc` in direction `ord`. */
  predicate Before(a: Observation, b: Observation, ord: Order)
  {
    match ord
    case Asc => a.tsUtc <= b.tsUtc
    case Desc => a.tsUtc >= b.tsUtc
  }

  predicate Sorted(s: seq<Observation>, ord: Order)
  {
    forall i, j :: 0 <= i < j < |s| ==> Before(s[i], s[j], ord)
  }

  lemma ConsSorted(h: Observation, t: seq<Observation>, ord: Order)
    requires Sorted(t, ord)
    requires forall y :: y in t ==> Before(h, y, ord)
    ensures Sorted([h] + t, ord)
  {
    var r := [h] + t;
    forall i, j | 0 <= i < j < |r| ensures Before(r[i], r[j], ord) {
      if i == 0 {
        assert r[j] == t[j - 1];
      } else {
        assert r[i] == t[i - 1] && r[j] == t[j - 1];
      }
    }
  }

  lemma ConsDistinct(h: Observation, t: seq<Observation>)
    requires DistinctKeys(t) && KeyAbsent(h, t)
    ensures DistinctKeys([h] + t)
  {
    var r := [h] + t;
    forall i, j | 0 <= i < j < |r| ensures KeyOf(r[i]) != KeyOf(r[j]) {
      if i == 0 {
        assert r[j] == t[j - 1];
      } else {
        assert r[i] == t[i - 1] && r[j] == t[j - 1];
      }
    }
  }

  /** The head of a sorted sequence may precede every other element; the head of a duplicate-free one shares no identity with the rest. */
  lemma HeadFacts(s: seq<Observation>, ord: Order)
    requires |s| > 0
    ensures Sorted(s, ord) ==> forall y :: y in s[1..] ==> Before(s[0], y, ord)
    ensures Sorted(s, ord) ==> Sorted(s[1..], ord)
    ensures DistinctKeys(s) ==> KeyAbsent(s[0], s[1..]) && DistinctKeys(s[1..])
  {
    forall y | y in s[1..] ensures (Sorted(s, ord) ==> Before(s[0], y, ord)) && (DistinctKeys(s) ==> KeyOf(y) != KeyOf(s[0])) {
      var k :| 0 <= k < |s[1..]| && s[1..][k] == y;
      assert s[k + 1] == y;
    }
    if DistinctKeys(s) {
      forall i, j | 0 <= i < j < |s[1..]| ensures KeyOf(s[1..][i]) != KeyOf(s[1..][j]) {
        assert s[1..][i] == s[i + 1] && s[1..][j] == s[j + 1];
      }
    }
  }

  /** Puts `x` in front of the first row it may precede. */
  function InsertSorted(x: Observation, s: seq<Observation>, ord: Order): (r: seq<Observation>)
    ensures multiset(r) == multiset(s) + multiset{x}
    ensures Sorted(s, ord) ==> Sorted(r, ord)
    ensures DistinctKeys(s) && KeyAbsent(x, s) ==> DistinctKeys(r)
  {
    if s == [] then [x]
    else if Before(x, s[0], ord) then
      PutInFront(x, s, ord);
      [x] + s
    else
      var t := InsertSorted(x, s[1..], ord);
      KeepHeadInFront(x, s, ord, t);
      [s[0]] + t
  }

  /** The step of `InsertSorted` that puts `x` in front of `s`, when it may precede the head. */
  lemma PutInFront(x: Observation, s: seq<Observation>, ord: Order)
    requires |s| > 0 && Before(x, s[0], ord)
    ensures Sorted(s, ord) ==> Sorted([x] + s, ord)
    ensures DistinctKeys(s) && KeyAbsent(x, s) ==> DistinctKeys([x] + s)
  {
    assert s == [s[0]] + s[1..];
    HeadFacts(s, ord);
    if Sorted(s, ord) {
      assert forall y :: y in s ==> Before(x, y, ord);
      ConsSorted(x, s, ord);
    }
    if DistinctKeys(s) && KeyAbsent(x, s) {
      ConsDistinct(x, s);
    }
  }

  /**
   * The step of `InsertSorted` that keeps the head in front: if `t` is `s[1..]`
   * with `x` inserted and `x` may not precede `s[0]`, then `[s[0]] + t` is `s`
   * with `x` inserted.
   */
  lemma KeepHeadInFront(x: Observation, s: seq<Observation>, ord: Order, t: seq<Observation>)
    requires |s| > 0 && !Before(x, s[0], ord)
    requires multiset(t) == multiset(s[1..]) + multiset{x}
    requires Sorted(s[1..], ord) ==> Sorted(t, ord)
    requires DistinctKeys(s[1..]) && KeyAbsent(x, s[1..]) ==> DistinctKeys(t)
    ensures multiset([s[0]] + t) == multiset(s) + multiset{x}
    ensures Sorted(s, ord) ==> Sorted([s[0]] + t, ord)
    ensures DistinctKeys(s) && KeyAbsent(x, s) ==> DistinctKeys([s[0]] + t)
  {
    assert s == [s[0]] + s[1..];
    HeadFacts(s, ord);
    assert forall y :: y in t ==> y == x || y in s[1..] by {
      forall y | y in t ensures y == x || y in s[1..] {
        assert y in multiset(t);
      }
    }
    if Sorted(s, ord) {
      ConsSorted(s[0], t, ord);
    }
    if DistinctKeys(s) && KeyAbsent(x, s) {
      assert KeyAbsent(x, s[1..]);
      ConsDistinct(s[0], t);
    }
  }

  /** The rows of `s` in `ORDER BY ts_utc` order for direction `ord`. */
  function SortBy(s: seq<Observation>, ord: Order): (r: seq<Observation>)
    ensures multiset(r) == multiset(s)
    ensures Sorted(r, ord)
    ensures DistinctKeys(s) ==> DistinctKeys(r)
  {
    if s == [] then []
    else
      var t := SortBy(s[1..], ord);
      assert s == [s[0]] + s[1..];
      HeadFacts(s, ord);
      assert DistinctKeys(s) ==> KeyAbsent(s[0], t) by {
        if DistinctKeys(s) {
          forall y | y in t ensures KeyOf(y) != KeyOf(s[0]) {
            assert y in multiset(s[1..]);
          }
        }
      }
      InsertSorted(s[0], t, ord)
  }

  /** In a sorted sequence of rows that share city and country and have distinct identities, the order is strict. */
  lemma StrictlySorted(s: seq<Observation>, ord: Order, city: Json, country: Json)
    requires Sorted(s, ord) && DistinctKeys(s)
    requires forall k :: 0 <= k < |s| ==> s[k].cityName == city && s[k].countryCode == country
    ensures forall i, j :: 0 <= i < j < |s| ==> s[i].tsUtc != s[j].tsUtc
    ensures ord == Asc ==> forall i, j :: 0 <= i < j < |s| ==> s[i].tsUtc < s[j].tsUtc
    ensures ord == Desc ==> forall i, j :: 0 <= i < j < |s| ==> s[i].tsUtc > s[j].tsUtc
  {
    forall i, j | 0 <= i < j < |s| ensures s[i].tsUtc != s[j].tsUtc {
      assert KeyOf(s[i]) != KeyOf(s[j]);
    }
  }
}
