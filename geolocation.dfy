/**
 * GeolocationService: a stateless resolver that tries the device's own
 * position first and falls back to an IP-based lookup. The three calls it
 * makes are I/O; here each is replaced by the outcome it delivers, and the
 * resolver returns, besides its answer, the calls it made in order.
 */
module Geolocation {
  import opened Wrappers
  import opened Records

  /** What `requestForegroundPermissionsAsync` delivers: a status, or an exception. */
  datatype PermissionReply = Status(status: PermissionStatus) | PermissionThrew

  /** What `getCurrentPositionAsync` delivers: a fix, or an error (a timeout included). */
  datatype FixReply = Position(latitude: real, longitude: real) | FixTimedOut | FixFailed

  /**
   * What `fetch('https://ipapi.co/json/')` followed by `response.json()`
   * delivers: a JSON object whose `latitude`/`longitude` fields may be
   * missing, or an exception from either step.
   */
  datatype LookupReply = Json(latitude: Option<real>, longitude: Option<real>) | NetworkError | NotJson

  /** `{ latitude, longitude }` as returned; a field is `None` when it is undefined. */
  datatype Coordinates = Coordinates(latitude: Option<real>, longitude: Option<real>)

  datatype Accuracy = Low | Balanced | High

  /** The outside calls the resolver makes. */
  datatype Call = RequestPermission | GetPosition(accuracy: Accuracy, timeoutMs: int) | Fetch(url: string)

  const FixTimeoutMs: int := 5000
  const LookupUrl: string := "https://ipapi.co/json/"
  const FallbackError: string := "Failed to get fallback location"

  /** An answer together with the calls made to reach it. */
  datatype Resolution = Resolution(result: Result<Coordinates, string>, calls: seq<Call>)

  /** `requestLocationPermission`: granted exactly when the status is 'granted'; an exception counts as refused. */
  function RequestLocationPermission(reply: PermissionReply): (granted: bool)
    ensures granted <==> reply == Status(Granted)
  {
    match reply
    case Status(s) => s == Granted
    case PermissionThrew => false
  }

  /** `getFallbackLocation`: the response's fields verbatim, or the one error message. */
  function GetFallbackLocation(reply: LookupReply): (out: Resolution)
    ensures out.calls == [Fetch(LookupUrl)]
    ensures reply.Json? ==> out.result == Success(Coordinates(reply.latitude, reply.longitude))
    ensures !reply.Json? ==> out.result == Failure(FallbackError)
  {
    var result :=
      match reply
      case Json(lat, lon) => Success(Coordinates(lat, lon))
      case NetworkError => Failure(FallbackError)
      case NotJson => Failure(FallbackError);
    Resolution(result, [Fetch(LookupUrl)])
  }

  /**
   * `getCurrentLocation`: permission, then one low-accuracy fix bounded by
   * 5000 ms; a refusal or any error from the fix falls through, inside the
   * same try/catch, to exactly one fallback lookup.
   */
  function GetCurrentLocation(permission: PermissionReply, fix: FixReply, lookup: LookupReply): (out: Resolution)
    ensures var granted := permission == Status(Granted);
            var fixed := granted && fix.Position?;
            && out.calls == [RequestPermission]
                            + (if granted then [GetPosition(Low, FixTimeoutMs)] else [])
                            + (if fixed then [] else [Fetch(LookupUrl)])
            && (fixed ==> out.result == Success(Coordinates(Some(fix.latitude), Some(fix.longitude))))
            && (!fixed ==> out.result == GetFallbackLocation(lookup).result)
    ensures out.result.Failure? <==> !(permission == Status(Granted) && fix.Position?) && !lookup.Json?
    ensures out.result.Failure? ==> out.result.error == FallbackError
  {
    if !RequestLocationPermission(permission) then
      // throw new Error('Location permission not granted'), caught below
      var fallback := GetFallbackLocation(lookup);
      Resolution(fallback.result, [RequestPermission] + fallback.calls)
    else
      var asked := [RequestPermission, GetPosition(Low, FixTimeoutMs)];
      match fix
      case Position(lat, lon) => Resolution(Success(Coordinates(Some(lat), Some(lon))), asked)
      case _ =>
        var fallback := GetFallbackLocation(lookup);
        Resolution(fallback.result, asked + fallback.calls)
  }

  /** How many times a trace calls the fallback lookup. */
  function Lookups(calls: seq<Call>): (n: nat)
    ensures n <= |calls|
    ensures n == 0 <==> forall c :: c in calls ==> !c.Fetch?
  {
    if calls == [] then 0
    else (if calls[0].Fetch? then 1 else 0) + Lookups(calls[1..])
  }

  /** The fallback is called exactly once when the fix is not used, and never when it is. */
  lemma FallbackCalledUnlessFixUsed(permission: PermissionReply, fix: FixReply, lookup: LookupReply)
    ensures var out := GetCurrentLocation(permission, fix, lookup);
            Lookups(out.calls) == if permission == Status(Granted) && fix.Position? then 0 else 1
  {
    var out := GetCurrentLocation(permission, fix, lookup);
    if permission == Status(Granted) {
      var tail := if fix.Position? then [] else [Fetch(LookupUrl)];
      assert out.calls == [RequestPermission, GetPosition(Low, FixTimeoutMs)] + tail;
      assert out.calls[1..] == [GetPosition(Low, FixTimeoutMs)] + tail;
      assert out.calls[1..][1..] == tail;
      assert [Fetch(LookupUrl)][1..] == [];
      assert Lookups(tail) == if fix.Position? then 0 else 1;
    } else {
      assert out.calls[1..] == [Fetch(LookupUrl)];
    }
  }

  /** A timed-out fix with a working lookup: the lookup's coordinates come back, no error. */
  lemma TimeoutFallsBack()
    ensures GetCurrentLocation(Status(Granted), FixTimedOut, Json(Some(12.9), Some(77.6))).result
            == Success(Coordinates(Some(12.9), Some(77.6)))
  {
  }

  /** The lookup's fields are not checked: a response without a longitude yields a half coordinate. */
  lemma PartialLookupPassesThrough(lat: real)
    ensures GetCurrentLocation(Status(Denied), FixFailed, Json(Some(lat), None)).result
            == Success(Coordinates(Some(lat), None))
  {
  }
}
