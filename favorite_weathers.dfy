/** Per-favorite weather summaries
    (src/features/favorites/model/use-favorite-weathers.ts): one forecast
    query per saved place, and the `weatherById` record derived from the
    query states. */
module FavoriteWeathers {
  import opened Wrappers
  import opened FavoritesStorage
  import FavoritesStore
  import OpenMeteo

  const DefaultTimeZone: string := "Asia/Seoul"

  /** What the hook asks for one saved place: the key fields, the coordinates
      and name passed on to `getWeatherOpenMeteo`, the zone and `enabled`. */
  datatype WeatherQuery = WeatherQuery(
    id: string, lat: real, lon: real, placeName: string, timeZone: string, enabled: bool)

  /** The flags and data of one query, as the derivation reads them. */
  datatype QueryState = QueryState(
    isPending: bool, isFetching: bool, isError: bool, data: Option<OpenMeteo.WeatherView>)

  /** `FavoriteWeatherSummaryState`. */
  datatype Summary = Loading | Errored | Success(tempNowC: real, tempMinTodayC: real, tempMaxTodayC: real)

  /** The queries for `items`, with the zone defaulting to Asia/Seoul and
      `enabled` to true when omitted. */
  function FavoriteQueries(items: seq<FavoritePlace>, timeZone: Option<string>, enabled: Option<bool>)
    : (r: seq<WeatherQuery>)
    ensures |r| == |items|
    ensures forall i :: 0 <= i < |r| ==>
      && r[i].id == items[i].id && r[i].lat == items[i].lat && r[i].lon == items[i].lon
      && r[i].placeName == items[i].placeName
    ensures forall i :: 0 <= i < |r| ==>
      && (timeZone.None? ==> r[i].timeZone == DefaultTimeZone)
      && (timeZone.Some? ==> r[i].timeZone == timeZone.value)
      && (enabled.None? ==> r[i].enabled)
      && (enabled.Some? ==> r[i].enabled == enabled.value)
  {
    var tz := if timeZone.Some? then timeZone.value else DefaultTimeZone;
    var en := if enabled.Some? then enabled.value else true;
    seq(|items|, i requires 0 <= i < |items| =>
      WeatherQuery(items[i].id, items[i].lat, items[i].lon, items[i].placeName, tz, en))
  }

  /** The summary one query state maps to: pending or fetching wins, then an
      error, then data; anything else is still loading. */
  function SummaryOf(q: QueryState): (r: Summary)
    ensures r == Errored <==> !q.isPending && !q.isFetching && q.isError
    ensures r.Success? <==> !q.isPending && !q.isFetching && !q.isError && q.data.Some?
    ensures r == Loading <==> q.isPending || q.isFetching || (!q.isError && q.data.None?)
    ensures r.Success? ==>
      && r.tempNowC == q.data.value.tempNowC
      && r.tempMinTodayC == q.data.value.tempMinTodayC
      && r.tempMaxTodayC == q.data.value.tempMaxTodayC
  {
    if q.isPending || q.isFetching then Loading
    else if q.isError then Errored
    else if q.data.Some? then
      Success(q.data.value.tempNowC, q.data.value.tempMinTodayC, q.data.value.tempMaxTodayC)
    else Loading
  }

  /** The record after the loop has visited the first `n` items; an item
      without a query is skipped, and a later item overwrites an earlier one
      with the same id. */
  function WeatherById(items: seq<FavoritePlace>, queries: seq<QueryState>, n: nat): map<string, Summary>
    requires n <= |items|
  {
    if n == 0 then map[]
    else
      var m := WeatherById(items, queries, n - 1);
      if n - 1 < |queries| then m[items[n - 1].id := SummaryOf(queries[n - 1])] else m
  }

  /** The memoised loop that builds `weatherById`. */
  method BuildWeatherById(items: seq<FavoritePlace>, queries: seq<QueryState>) returns (m: map<string, Summary>)
    ensures m == WeatherById(items, queries, |items|)
  {
    m := map[];
    for i := 0 to |items|
      invariant m == WeatherById(items, queries, i)
    {
      var it := items[i];
      if i >= |queries| {
        continue;
      }
      var q := queries[i];
      if q.isPending || q.isFetching {
        m := m[it.id := Loading];
        continue;
      }
      if q.isError {
        m := m[it.id := Errored];
        continue;
      }
      if q.data.Some? {
        m := m[it.id := Success(q.data.value.tempNowC, q.data.value.tempMinTodayC, q.data.value.tempMaxTodayC)];
        continue;
      }
      m := m[it.id := Loading];
    }
  }

  /** The record has an entry for exactly the ids of the items that have a
      query. */
  lemma {:induction false} WeatherByIdKeys(items: seq<FavoritePlace>, queries: seq<QueryState>, n: nat)
    requires n <= |items|
    ensures WeatherById(items, queries, n).Keys == (set i | 0 <= i < n && i < |queries| :: items[i].id)
  {
    if n > 0 {
      WeatherByIdKeys(items, queries, n - 1);
    }
  }

  /** An item's entry is its own query's summary when no later item with a
      query shares its id. */
  lemma {:induction false} WeatherByIdLastWins(items: seq<FavoritePlace>, queries: seq<QueryState>, n: nat, i: nat)
    requires i < n <= |items| && i < |queries|
    requires forall j :: i < j < n && j < |queries| ==> items[j].id != items[i].id
    ensures items[i].id in WeatherById(items, queries, n)
    ensures WeatherById(items, queries, n)[items[i].id] == SummaryOf(queries[i])
  {
    if i < n - 1 {
      WeatherByIdLastWins(items, queries, n - 1, i);
    }
  }

  /** For a list with unique ids (what the favorites store keeps), each item
      with a query maps to that query's summary, and nothing else is in the
      record. */
  lemma WeatherByIdOfFavorites(items: seq<FavoritePlace>, queries: seq<QueryState>)
    requires FavoritesStore.UniqueIds(items)
    ensures var m := WeatherById(items, queries, |items|);
      && m.Keys == (set i | 0 <= i < |items| && i < |queries| :: items[i].id)
      && forall i :: 0 <= i < |items| && i < |queries| ==> m[items[i].id] == SummaryOf(queries[i])
  {
    WeatherByIdKeys(items, queries, |items|);
    forall i | 0 <= i < |items| && i < |queries|
      ensures WeatherById(items, queries, |items|)[items[i].id] == SummaryOf(queries[i])
    {
      WeatherByIdLastWins(items, queries, |items|, i);
    }
  }
}
