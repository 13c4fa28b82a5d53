/**
 * The location slice (src/redux/slices/locationSlice.ts). The geolocation call itself
 * is not modelled: its readings arrive as the payloads of the thunk's actions.
 */
module LocationSlice {

  import opened Wrappers

  /** `LocationData`: one geolocation fix; floating-point fields are reals and no arithmetic is done on them. */
  datatype LocationData = LocationData(latitude: real, longitude: real, accuracy: real, altitude: Option<real>, timestamp: string)

  datatype LocationState = LocationState(currentLocation: Option<LocationData>, isLoading: bool, error: Option<string>)

  function InitialState(): (s: LocationState)
    ensures s.currentLocation.None? && !s.isLoading && s.error.None?
  {
    LocationState(None, false, None)
  }

  datatype LocationAction =
    | Pending
    | Fulfilled(location: LocationData)
    | Rejected(payload: Option<string>)
    | ClearLocation

  /** The slice reducer. */
  function Reduce(s: LocationState, a: LocationAction): (t: LocationState)
    ensures a.Pending? ==> t.isLoading && t.error.None? && t.currentLocation == s.currentLocation
    ensures a.Fulfilled? ==> !t.isLoading && t.currentLocation == Some(a.location) && t.error == s.error
    ensures a.Rejected? ==> !t.isLoading && t.error == a.payload && t.currentLocation == s.currentLocation
    ensures a.ClearLocation? ==> t.currentLocation.None? && t.error.None? && t.isLoading == s.isLoading
  {
    match a
    case Pending => s.(isLoading := true, error := None)
    case Fulfilled(l) => s.(isLoading := false, currentLocation := Some(l))
    case Rejected(payload) => s.(isLoading := false, error := payload)
    case ClearLocation => s.(currentLocation := None, error := None)
  }

  function ReduceAll(s: LocationState, actions: seq<LocationAction>): LocationState
    decreases |actions|
  {
    if |actions| == 0 then s
    else Reduce(ReduceAll(s, actions[..|actions| - 1]), actions[|actions| - 1])
  }

  /**
   * The location shown after `actions`: the last fix received, unless a clear came
   * after it; pendings and failures keep the previous one on screen.
   */
  function LocationAfter(initial: Option<LocationData>, actions: seq<LocationAction>): Option<LocationData>
    decreases |actions|
  {
    if |actions| == 0 then initial
    else match actions[|actions| - 1]
      case Fulfilled(l) => Some(l)
      case ClearLocation => None
      case _ => LocationAfter(initial, actions[..|actions| - 1])
  }

  /**
   * The error shown after `actions`: the last failure's message, unless a new request
   * or a clear came after it. A successful fix does not clear it.
   */
  function ErrorAfter(initial: Option<string>, actions: seq<LocationAction>): Option<string>
    decreases |actions|
  {
    if |actions| == 0 then initial
    else match actions[|actions| - 1]
      case Rejected(m) => m
      case Pending => None
      case ClearLocation => None
      case Fulfilled(_) => ErrorAfter(initial, actions[..|actions| - 1])
  }

  lemma {:induction false} LocationTracksLastFix(s: LocationState, actions: seq<LocationAction>)
    ensures ReduceAll(s, actions).currentLocation == LocationAfter(s.currentLocation, actions)
    ensures ReduceAll(s, actions).error == ErrorAfter(s.error, actions)
    decreases |actions|
  {
    if |actions| > 0 {
      LocationTracksLastFix(s, actions[..|actions| - 1]);
    }
  }

  /** A failed request after a fix keeps that fix on screen next to the error. */
  lemma FailureKeepsLastFix(s: LocationState, fix: LocationData, message: string)
    ensures var t := ReduceAll(s, [Fulfilled(fix), Pending, Rejected(Some(message))]);
      t.currentLocation == Some(fix) && t.error == Some(message) && !t.isLoading
  {
    var actions := [Fulfilled(fix), Pending, Rejected(Some(message))];
    LocationTracksLastFix(s, actions);
    assert actions[..2] == [Fulfilled(fix), Pending];
    assert actions[..2][..1] == [Fulfilled(fix)];
    assert LocationAfter(s.currentLocation, actions[..2][..1]) == Some(fix);
    assert LocationAfter(s.currentLocation, actions[..2]) == Some(fix);
  }
}
