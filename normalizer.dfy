/**
 * The normaliser `parse_current` (app/save_to_sqlite.py): it maps a Weatherbit
 * "current weather" payload to one flat observation record whose keys are the
 * columns of the `weather_observations` table.
 */
module Normalizer {
  import opened Wrappers
  import opened JsonValue
  import PyInt

  /**
   * The record `parse_current` returns. Every field holds the provider value
   * as decoded (`Null` where the provider key is absent), except `tsUtc`,
   * which is always the integer epoch-seconds value of `ts`.
   */
  datatype Observation = Observation(
    cityName: Json,
    countryCode: Json,
    lat: Json,
    lon: Json,
    tsUtc: int,
    tz: Json,
    tempC: Json,
    feelsLikeC: Json,
    humidity: Json,
    pressure: Json,
    windSpeed: Json,
    windDir: Json,
    clouds: Json,
    visibilityKm: Json,
    weatherDescription: Json)

  /**
   * `(payload.get("data") or [{}])[0]`: a falsy or missing `data` is replaced
   * by a list holding one empty dict; then element 0 is taken.
   */
  function FirstRecord(payload: map<string, Json>): (r: Result<Json, PyError>)
    ensures !Truthy(Get(payload, "data")) ==> r == Success(Obj(map[]))
    ensures var data := Get(payload, "data");
      r.Success? <==> !Truthy(data) || data.Arr? || data.Str?
    ensures var data := Get(payload, "data");
      Truthy(data) && data.Arr? ==> r == Success(data.items[0])
    ensures var data := Get(payload, "data");
      Truthy(data) && data.Str? ==> r == Success(Str(data.s[..1]))
    ensures var data := Get(payload, "data");
      Truthy(data) && data.Obj? ==> r == Failure(KeyError(Int(0)))
    ensures var data := Get(payload, "data");
      Truthy(data) && !(data.Arr? || data.Str? || data.Obj?) ==> r == Failure(TypeError)
  {
    var data := Get(payload, "data");
    var results := if Truthy(data) then data else Arr([Obj(map[])]);
    match results
    case Arr(items) => Success(items[0])
    case Str(s) => assert [s[0]] == s[..1]; Success(Str([s[0]]))
    case Obj(_) => Failure(KeyError(Int(0)))
    case _ => Failure(TypeError)
  }

  /** `parse_current(payload)` */
  function ParseCurrent(payload: map<string, Json>): (r: Result<Observation, PyError>)
    ensures r.Success? ==>
      && FirstRecord(payload).Success? && FirstRecord(payload).value.Obj?
      && var d := FirstRecord(payload).value.fields;
      && "ts" in d && PyInt.ToInt(d["ts"]) == Success(r.value.tsUtc)
      && r.value.cityName == Get(d, "city_name") && r.value.countryCode == Get(d, "country_code")
    ensures FirstRecord(payload).Failure? ==> r == Failure(FirstRecord(payload).error)
    ensures FirstRecord(payload).Success? && !FirstRecord(payload).value.Obj? ==> r == Failure(TypeError)
    ensures FirstRecord(payload).Success? && FirstRecord(payload).value.Obj? && "ts" !in FirstRecord(payload).value.fields
      ==> r == Failure(KeyError(Str("ts")))
    ensures FirstRecord(payload).Success? && FirstRecord(payload).value.Obj? && "ts" in FirstRecord(payload).value.fields
      && PyInt.ToInt(FirstRecord(payload).value.fields["ts"]).Failure?
      ==> r == Failure(PyInt.ToInt(FirstRecord(payload).value.fields["ts"]).error)
    ensures r == Failure(AttributeError) <==>
      && FirstRecord(payload).Success? && FirstRecord(payload).value.Obj?
      && var d := FirstRecord(payload).value.fields;
      && "ts" in d && PyInt.ToInt(d["ts"]).Success?
      && "weather" in d && !d["weather"].Obj?
  {
    var first :- FirstRecord(payload);
    match first
    case Obj(d) =>
      if "ts" !in d then Failure(KeyError(Str("ts")))
      else
        var ts :- PyInt.ToInt(d["ts"]);
        var tz := GetOr(d, "timezone", Str("UTC"));
        var weather := GetOr(d, "weather", Obj(map[]));
        if !weather.Obj? then Failure(AttributeError)
        else
          Success(Observation(
                    cityName := Get(d, "city_name"),
                    countryCode := Get(d, "country_code"),
                    lat := Get(d, "lat"),
                    lon := Get(d, "lon"),
                    tsUtc := ts,
                    tz := tz,
                    tempC := Get(d, "temp"),
                    feelsLikeC := Get(d, "app_temp"),
                    humidity := Get(d, "rh"),
                    pressure := Get(d, "pres"),
                    windSpeed := Get(d, "wind_spd"),
                    windDir := Get(d, "wind_dir"),
                    clouds := Get(d, "clouds"),
                    visibilityKm := Get(d, "vis"),
                    weatherDescription := Get(weather.fields, "description")))
    case _ => Failure(TypeError)
  }

  /**
   * The provider record that carries an observation: the provider's own key
   * for each column, with the description nested under `weather`.
   */
  function ProviderRecord(o: Observation): map<string, Json>
  {
    map[
      "city_name" := o.cityName,
      "country_code" := o.countryCode,
      "lat" := o.lat,
      "lon" := o.lon,
      "ts" := Int(o.tsUtc),
      "timezone" := o.tz,
      "temp" := o.tempC,
      "app_temp" := o.feelsLikeC,
      "rh" := o.humidity,
      "pres" := o.pressure,
      "wind_spd" := o.windSpeed,
      "wind_dir" := o.windDir,
      "clouds" := o.clouds,
      "vis" := o.visibilityKm,
      "weather" := Obj(map["description" := o.weatherDescription])]
  }

  /** A payload whose `data` list holds that one record. */
  function ToPayload(o: Observation): map<string, Json>
  {
    map["data" := Arr([Obj(ProviderRecord(o))])]
  }

  lemma ProviderRecordLookups(o: Observation)
    ensures var d := ProviderRecord(o);
      && "ts" in d && d["ts"] == Int(o.tsUtc)
      && "timezone" in d && d["timezone"] == o.tz
      && "weather" in d && d["weather"] == Obj(map["description" := o.weatherDescription])
      && Get(d, "city_name") == o.cityName && Get(d, "country_code") == o.countryCode
      && Get(d, "lat") == o.lat && Get(d, "lon") == o.lon
      && Get(d, "temp") == o.tempC && Get(d, "app_temp") == o.feelsLikeC
      && Get(d, "rh") == o.humidity && Get(d, "pres") == o.pressure
      && Get(d, "wind_spd") == o.windSpeed && Get(d, "wind_dir") == o.windDir
      && Get(d, "clouds") == o.clouds && Get(d, "vis") == o.visibilityKm
  {
  }

  /** Normalising the payload that carries an observation gives back that observation. */
  lemma ParseToPayload(o: Observation)
    ensures ParseCurrent(ToPayload(o)) == Success(o)
  {
    var p := ToPayload(o);
    assert Truthy(p["data"]);
    assert FirstRecord(p) == Success(Obj(ProviderRecord(o)));
    ProviderRecordLookups(o);
  }

  /**
   * A payload whose `data` is missing or empty (or falsy in any other way) is
   * rejected with `KeyError('ts')`: the empty dict that stands in for the
   * first result has no `ts`.
   */
  lemma EmptyDataFails(payload: map<string, Json>)
    requires "data" !in payload || !Truthy(payload["data"])
    ensures ParseCurrent(payload) == Failure(KeyError(Str("ts")))
  {
  }

  /**
   * Exactly the payloads whose first result is a dict with a `ts` that `int()`
   * accepts, and whose `weather` (if present) is a dict, are normalised.
   */
  lemma ParseSucceedsIff(payload: map<string, Json>)
    ensures ParseCurrent(payload).Success? <==>
      (&& FirstRecord(payload).Success?
       && FirstRecord(payload).value.Obj?
       && var d := FirstRecord(payload).value.fields;
       && "ts" in d
       && PyInt.ToInt(d["ts"]).Success?
       && ("weather" in d ==> d["weather"].Obj?))
  {
  }

  /**
   * The fixed field mapping of a successful normalisation: `ts_utc` is
   * `int(ts)`, `tz` is `timezone` or "UTC" when the key is absent,
   * `weather_description` is `weather.description` or `None`, and every other
   * column is the provider value under its provider key, or `None`.
   */
  lemma ParseFieldMapping(payload: map<string, Json>, o: Observation)
    requires ParseCurrent(payload) == Success(o)
    ensures FirstRecord(payload).Success? && FirstRecord(payload).value.Obj?
    ensures var d := FirstRecord(payload).value.fields;
      && "ts" in d && PyInt.ToInt(d["ts"]) == Success(o.tsUtc)
      && o.tz == (if "timezone" in d then d["timezone"] else Str("UTC"))
      && o.weatherDescription ==
         (if "weather" in d && "description" in d["weather"].fields then d["weather"].fields["description"] else Null)
      && o.cityName == Get(d, "city_name") && o.countryCode == Get(d, "country_code")
      && o.lat == Get(d, "lat") && o.lon == Get(d, "lon")
      && o.tempC == Get(d, "temp") && o.feelsLikeC == Get(d, "app_temp")
      && o.humidity == Get(d, "rh") && o.pressure == Get(d, "pres")
      && o.windSpeed == Get(d, "wind_spd") && o.windDir == Get(d, "wind_dir")
      && o.clouds == Get(d, "clouds") && o.visibilityKm == Get(d, "vis")
  {
  }
}
