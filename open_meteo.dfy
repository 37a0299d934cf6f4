/** The weather normaliser (src/entities/weather/api/open-meteo.ts): the checks
    and assembly `getWeatherOpenMeteo` performs once the forecast response has
    arrived, and the hourly series cut to today's 24 points. */
module OpenMeteo {
  import opened Wrappers
  import opened JsonValue
  import JsText
  import StableSort

  datatype HourlyPoint = HourlyPoint(time: string, tempC: real)

  datatype WeatherView = WeatherView(
    placeName: string,
    tempNowC: real,
    tempMinTodayC: real,
    tempMaxTodayC: real,
    hourlyToday: seq<HourlyPoint>)

  /** How `getWeatherOpenMeteo` fails: its three named errors, the rejection of
      `res.json()` on a body that is not JSON, and the TypeError of reading
      `current` from a `null` body. */
  datatype WeatherError = FetchFailed | BodyNotJson | NullBody | DataMissing | HourlyIncomplete

  const HoursPerDay: nat := 24

  /** The point index `i` yields: its time must be a string on `today` and its
      temperature a number (an index past the temperature array has none). */
  function PointAt(today: string, times: seq<Json>, temps: seq<Json>, i: nat): Option<HourlyPoint>
    requires i < |times|
  {
    var t := times[i];
    var temp := AsNumber(if i < |temps| then Some(temps[i]) else None);
    if !t.JStr? || temp.None? then None
    else if !JsText.StartsWith(t.s, today + "T") then None
    else Some(HourlyPoint(t.s, temp.value))
  }

  /** The points the loop pushes from the first `n` indices, in index order. */
  function Candidates(today: string, times: seq<Json>, temps: seq<Json>, n: nat): seq<HourlyPoint>
    requires n <= |times|
  {
    if n == 0 then []
    else
      var p := PointAt(today, times, temps, n - 1);
      Candidates(today, times, temps, n - 1) + (if p.Some? then [p.value] else [])
  }

  /** The comparator `(a, b) => a.time.localeCompare(b.time)`, as an order. */
  predicate ByTime(a: HourlyPoint, b: HourlyPoint) {
    JsText.LexLe(a.time, b.time)
  }

  lemma ByTimeIsTotalPreorder()
    ensures StableSort.TotalPreorder(ByTime)
  {
    forall a: HourlyPoint, b: HourlyPoint ensures ByTime(a, b) || ByTime(b, a) {
      JsText.LexLeTotal(a.time, b.time);
    }
    forall a: HourlyPoint, b: HourlyPoint, c: HourlyPoint | ByTime(a, b) && ByTime(b, c) ensures ByTime(a, c) {
      JsText.LexLeTransitive(a.time, b.time, c.time);
    }
  }

  /** What `toHourlyToday24` returns: today's points, sorted by time, the first 24. */
  function HourlyToday24(today: string, times: seq<Json>, temps: seq<Json>): seq<HourlyPoint> {
    JsText.Take(StableSort.Sort(Candidates(today, times, temps, |times|), ByTime), HoursPerDay)
  }

  /** `toHourlyToday24`: the indexed loop, the sort and the cut. */
  method ToHourlyToday24(today: string, times: seq<Json>, temps: seq<Json>) returns (points: seq<HourlyPoint>)
    ensures points == HourlyToday24(today, times, temps)
  {
    points := [];
    for i := 0 to |times|
      invariant points == Candidates(today, times, temps, i)
    {
      var t := times[i];
      var temp := if i < |temps| then Some(temps[i]) else None;
      if !t.JStr? || AsNumber(temp).None? {
        continue;
      }
      if !JsText.StartsWith(t.s, today + "T") {
        continue;
      }
      points := points + [HourlyPoint(t.s, AsNumber(temp).value)];
    }
    points := StableSort.Sort(points, ByTime);
    points := JsText.Take(points, HoursPerDay);
  }

  /** Every candidate point is the time and temperature at one index, and every
      index whose time is on `today` and whose temperature is a number gives one. */
  lemma {:induction false} CandidatesExactly(today: string, times: seq<Json>, temps: seq<Json>, n: nat)
    requires n <= |times|
    ensures forall p :: p in Candidates(today, times, temps, n) ==>
              exists i :: 0 <= i < n && PointAt(today, times, temps, i) == Some(p)
    ensures forall i :: 0 <= i < n && PointAt(today, times, temps, i).Some? ==>
              PointAt(today, times, temps, i).value in Candidates(today, times, temps, n)
  {
    if n > 0 {
      CandidatesExactly(today, times, temps, n - 1);
    }
  }

  /** The hourly series is at most 24 points, all on `today`, each the time and
      temperature at one index, in time order; when no more than 24 qualify it
      is all of them. */
  lemma HourlyTodayProperties(today: string, times: seq<Json>, temps: seq<Json>)
    ensures var r := HourlyToday24(today, times, temps);
      var c := Candidates(today, times, temps, |times|);
      && |r| == (if |c| < HoursPerDay then |c| else HoursPerDay)
      && StableSort.SortedBy(r, ByTime)
      && (forall k :: 0 <= k < |r| ==> JsText.StartsWith(r[k].time, today + "T"))
      && (forall k :: 0 <= k < |r| ==>
            exists i :: 0 <= i < |times| && i < |temps| && times[i] == JStr(r[k].time) && temps[i] == JNum(r[k].tempC))
      && (|c| <= HoursPerDay ==> multiset(r) == multiset(c))
  {
    var c := Candidates(today, times, temps, |times|);
    var r := HourlyToday24(today, times, temps);
    assert r == StableSort.Sort(c, ByTime)[..JsText.SliceEnd(|c|, HoursPerDay)];
    ByTimeIsTotalPreorder();
    StableSort.SortedCut(c, JsText.SliceEnd(|c|, HoursPerDay), ByTime);
    CandidatesExactly(today, times, temps, |times|);
    forall k | 0 <= k < |r|
      ensures JsText.StartsWith(r[k].time, today + "T")
      ensures exists i :: 0 <= i < |times| && i < |temps| && times[i] == JStr(r[k].time) && temps[i] == JNum(r[k].tempC)
    {
      assert r[k] in multiset(r);
      var i :| 0 <= i < |times| && PointAt(today, times, temps, i) == Some(r[k]);
    }
  }

  // ---------------------------------------------------------------------------
  // The fields `getWeatherOpenMeteo` reads from the response body

  /** `data.current?.temperature_2m` */
  function TempNow(data: Json): Option<Json> {
    OptGet(Get(data, "current"), "temperature_2m")
  }

  /** `data.daily?.temperature_2m_min?.[0]` */
  function MinToday(data: Json): Option<Json> {
    OptFirst(OptGet(Get(data, "daily"), "temperature_2m_min"))
  }

  /** `data.daily?.temperature_2m_max?.[0]` */
  function MaxToday(data: Json): Option<Json> {
    OptFirst(OptGet(Get(data, "daily"), "temperature_2m_max"))
  }

  /** `data.hourly?.time` */
  function HourlyTime(data: Json): Option<Json> {
    OptGet(Get(data, "hourly"), "time")
  }

  /** `data.hourly?.temperature_2m` */
  function HourlyTemp(data: Json): Option<Json> {
    OptGet(Get(data, "hourly"), "temperature_2m")
  }

  /** The three temperatures are numbers and the two hourly series are arrays. */
  predicate HasRequiredFields(data: Json) {
    && AsNumber(TempNow(data)).Some?
    && AsNumber(MinToday(data)).Some?
    && AsNumber(MaxToday(data)).Some?
    && HourlyTime(data).Some? && HourlyTime(data).value.JArr?
    && HourlyTemp(data).Some? && HourlyTemp(data).value.JArr?
  }

  /** The body of `getWeatherOpenMeteo` after `fetch`, for the place name and
      the `today` date it was given. The error taxonomy is total: each error
      has exactly one cause, checked in order, and a success carries exactly 24
      of today's points in time order, with the name and temperatures read. */
  method GetWeather(placeName: string, today: string, res: HttpResponse) returns (r: Result<WeatherView, WeatherError>)
    ensures r == Err(FetchFailed) <==> !res.ok
    ensures r == Err(BodyNotJson) <==> res.ok && res.body.None?
    ensures r == Err(NullBody) <==> res.ok && res.body == Some(JNull)
    ensures r == Err(DataMissing) <==> res.ok && res.body.Some? && res.body.value != JNull && !HasRequiredFields(res.body.value)
    ensures r == Err(HourlyIncomplete) <==>
      && res.ok && res.body.Some? && res.body.value != JNull && HasRequiredFields(res.body.value)
      && |Candidates(today, HourlyTime(res.body.value).value.elems, HourlyTemp(res.body.value).value.elems,
                     |HourlyTime(res.body.value).value.elems|)| < HoursPerDay
    ensures r.Ok? ==>
      && res.ok && res.body.Some? && HasRequiredFields(res.body.value)
      && var data := res.body.value;
      && r.value.placeName == placeName
      && TempNow(data) == Some(JNum(r.value.tempNowC))
      && MinToday(data) == Some(JNum(r.value.tempMinTodayC))
      && MaxToday(data) == Some(JNum(r.value.tempMaxTodayC))
      && r.value.hourlyToday == HourlyToday24(today, HourlyTime(data).value.elems, HourlyTemp(data).value.elems)
      && |r.value.hourlyToday| == HoursPerDay
      && StableSort.SortedBy(r.value.hourlyToday, ByTime)
      && (forall k :: 0 <= k < HoursPerDay ==> JsText.StartsWith(r.value.hourlyToday[k].time, today + "T"))
  {
    if !res.ok {
      return Err(FetchFailed);
    }
    if res.body.None? {
      return Err(BodyNotJson);
    }
    var data := res.body.value;
    if data.JNull? {
      return Err(NullBody);
    }
    var tempNow, minToday, maxToday := AsNumber(TempNow(data)), AsNumber(MinToday(data)), AsNumber(MaxToday(data));
    var hourlyTime, hourlyTemp := HourlyTime(data), HourlyTemp(data);
    if tempNow.None? || minToday.None? || maxToday.None?
       || hourlyTime.None? || !hourlyTime.value.JArr? || hourlyTemp.None? || !hourlyTemp.value.JArr? {
      return Err(DataMissing);
    }
    var hourlyToday := ToHourlyToday24(today, hourlyTime.value.elems, hourlyTemp.value.elems);
    HourlyTodayProperties(today, hourlyTime.value.elems, hourlyTemp.value.elems);
    if |hourlyToday| != HoursPerDay {
      return Err(HourlyIncomplete);
    }
    return Ok(WeatherView(placeName, tempNow.value, minToday.value, maxToday.value, hourlyToday));
  }
}
