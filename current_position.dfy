/** The current-position status machine
    (src/features/detect-location/model/use-current-position.ts): the initial
    state, the geolocation callbacks and the place-name enrichment. */
module CurrentPosition {
  import opened Wrappers
  import opened JsonValue
  import JsText
  import opened ReverseGeocode

  datatype Coords = Coords(lat: real, lon: real)

  /** `UseCurrentPositionState`; `placeName` is `None` while not yet known. */
  datatype PositionState =
    | Idle
    | Loading
    | Located(coords: Coords, placeName: Option<string>)
    | Failed(message: string)

  /** What the environment offers: no `navigator` (server rendering), a
      `navigator` without `geolocation`, or geolocation. */
  datatype Platform = NoNavigator | NoGeolocation | HasGeolocation

  const UnsupportedMessage: string := "이 브라우저에서는 위치 기능을 지원하지 않습니다."
  const PermissionMessage: string := "위치 권한이 필요합니다. 검색으로 조회해 주세요."
  const RetryMessage: string := "현재 위치를 가져오지 못했습니다. 잠시 후 다시 시도해 주세요."

  /** The state initialiser. */
  function InitialState(p: Platform): (r: PositionState)
    ensures r == Idle <==> p == NoNavigator
    ensures r == Failed(UnsupportedMessage) <==> p == NoGeolocation
    ensures r == Loading <==> p == HasGeolocation
  {
    match p
    case NoNavigator => Idle
    case NoGeolocation => Failed(UnsupportedMessage)
    case HasGeolocation => Loading
  }

  /** The message of the error callback: code 1 (permission denied) asks for
      permission, every other code suggests retrying. */
  function ErrorMessage(code: int): (r: string)
    ensures r == PermissionMessage <==> code == 1
    ensures r == RetryMessage <==> code != 1
  {
    if code == 1 then PermissionMessage else RetryMessage
  }

  /** A message the hook can show. */
  predicate KnownMessage(m: string) {
    m == UnsupportedMessage || m == PermissionMessage || m == RetryMessage
  }

  class PositionTracker {
    var state: PositionState
    /** Whether the effect asked for the position (callbacks only fire then). */
    ghost var requested: bool

    /** An error shows one of the three messages; a place name, once set, is
        non-empty and trimmed; the callbacks are registered only when
        geolocation exists, and until then the state is the initial one. */
    ghost predicate Valid()
      reads this
    {
      && (state.Failed? ==> KnownMessage(state.message))
      && (state.Located? && state.placeName.Some? ==>
            state.placeName.value != "" && JsText.IsTrimmed(state.placeName.value))
      && (!requested ==> state == Idle || state == Failed(UnsupportedMessage))
    }

    /** Initialise, then run the effect, which asks for the position only when
        geolocation exists. */
    constructor (p: Platform)
      ensures Valid()
      ensures state == InitialState(p)
      ensures requested <==> p == HasGeolocation
    {
      state := InitialState(p);
      requested := p == HasGeolocation;
    }

    /** The success callback: the coordinates, without a name yet. */
    method OnPosition(lat: real, lon: real)
      requires Valid() && requested
      modifies this
      ensures Valid() && requested
      ensures state == Located(Coords(lat, lon), None)
    {
      state := Located(Coords(lat, lon), None);
    }

    /** The error callback. */
    method OnError(code: int)
      requires Valid() && requested
      modifies this
      ensures Valid() && requested
      ensures state == Failed(ErrorMessage(code))
    {
      state := Failed(ErrorMessage(code));
    }

    /** The reverse-geocoding promise settling with `res` as the response: a
        truthy name is attached to a `success` state, and in every other case
        (no name, another state, a rejection) the state stays as it is. */
    method OnReverseGeocode(res: HttpResponse)
      requires Valid() && requested
      modifies this
      ensures Valid() && requested
      ensures var lookup := ReverseGeocodeName(res);
        if lookup.Resolved? && lookup.name.Some? && lookup.name.value != "" && old(state).Located?
        then state == old(state).(placeName := lookup.name)
        else state == old(state)
    {
      var lookup := ReverseGeocodeName(res);
      if lookup.Rejected? {
        return;
      }
      var placeName := lookup.name;
      if placeName.None? || placeName.value == "" {
        return;
      }
      if !state.Located? {
        return;
      }
      state := state.(placeName := placeName);
    }
  }
}
