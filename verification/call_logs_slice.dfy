/**
 * The call-log slice (src/redux/slices/callLogsSlice.ts): two thunks, `fetchCallLogs`
 * and `fetchTopContacts`, share one loading flag and one error field.
 */
module CallLogsSlice {

  import opened Wrappers
  import opened Text
  import CallLogsModule

  datatype CallLogsState = CallLogsState(
    callLogs: seq<CallLogsModule.CallLogItem>,
    topContacts: seq<CallLogsModule.ContactStats>,
    isLoading: bool,
    error: Option<string>)

  function InitialState(): (s: CallLogsState)
    ensures s.callLogs == [] && s.topContacts == [] && !s.isLoading && s.error.None?
  {
    CallLogsState([], [], false, None)
  }

  datatype Fetch = FetchCallLogs | FetchTopContacts

  datatype CallLogsAction =
    | Pending(fetch: Fetch)
    | CallLogsFulfilled(items: seq<CallLogsModule.CallLogItem>)
    | TopContactsFulfilled(contacts: seq<CallLogsModule.ContactStats>)
    | Rejected(failed: Fetch, payload: Option<string>)
    | ClearCallLogs

  /** The slice reducer. */
  function Reduce(s: CallLogsState, a: CallLogsAction): (t: CallLogsState)
    ensures a.Pending? ==> t.isLoading && t.error.None? && t.callLogs == s.callLogs && t.topContacts == s.topContacts
    ensures a.CallLogsFulfilled? ==> !t.isLoading && t.callLogs == a.items && t.topContacts == s.topContacts && t.error == s.error
    ensures a.TopContactsFulfilled? ==> !t.isLoading && t.topContacts == a.contacts && t.callLogs == s.callLogs && t.error == s.error
    ensures a.Rejected? ==> !t.isLoading && t.error == a.payload && t.callLogs == s.callLogs && t.topContacts == s.topContacts
    ensures a.ClearCallLogs? ==> t.callLogs == [] && t.topContacts == [] && t.error.None? && t.isLoading == s.isLoading
  {
    match a
    case Pending(_) => s.(isLoading := true, error := None)
    case CallLogsFulfilled(items) => s.(isLoading := false, callLogs := items)
    case TopContactsFulfilled(contacts) => s.(isLoading := false, topContacts := contacts)
    case Rejected(_, payload) => s.(isLoading := false, error := payload)
    case ClearCallLogs => s.(callLogs := [], topContacts := [], error := None)
  }

  function ReduceAll(s: CallLogsState, actions: seq<CallLogsAction>): CallLogsState
    decreases |actions|
  {
    if |actions| == 0 then s
    else Reduce(ReduceAll(s, actions[..|actions| - 1]), actions[|actions| - 1])
  }

  /** Whether a settling action belongs to the given thunk. */
  predicate Settles(a: CallLogsAction, f: Fetch) {
    match a
    case CallLogsFulfilled(_) => f == FetchCallLogs
    case TopContactsFulfilled(_) => f == FetchTopContacts
    case Rejected(g, _) => g == f
    case _ => false
  }

  /**
   * The loading flag after `actions`, following the thunk life cycle: it is on exactly
   * when the last action other than a clear was a pending one, whichever thunk it was.
   */
  function LoadingAfter(initial: bool, actions: seq<CallLogsAction>): bool
    decreases |actions|
  {
    if |actions| == 0 then initial
    else
      var last := actions[|actions| - 1];
      if last.ClearCallLogs? then LoadingAfter(initial, actions[..|actions| - 1])
      else last.Pending?
  }

  /** The flag follows `LoadingAfter`; in particular a clear leaves it where it was, even mid-fetch. */
  lemma {:induction false} LoadingTracksLastEvent(s: CallLogsState, actions: seq<CallLogsAction>)
    ensures ReduceAll(s, actions).isLoading == LoadingAfter(s.isLoading, actions)
    ensures |actions| > 0 && actions[|actions| - 1].ClearCallLogs? ==>
      ReduceAll(s, actions).isLoading == ReduceAll(s, actions[..|actions| - 1]).isLoading
    decreases |actions|
  {
    if |actions| > 0 {
      LoadingTracksLastEvent(s, actions[..|actions| - 1]);
    }
  }

  /**
   * The flag is shared: settling one thunk clears it even while the other thunk is
   * still pending.
   */
  lemma SettlingEitherClearsLoading(s: CallLogsState, actions: seq<CallLogsAction>, settle: CallLogsAction)
    requires Settles(settle, FetchCallLogs) || Settles(settle, FetchTopContacts)
    ensures !ReduceAll(s, actions + [settle]).isLoading
  {
    LoadingTracksLastEvent(s, actions + [settle]);
  }

  /** A sequence that never fulfils `fetchTopContacts` and never clears keeps the top contacts as they were. */
  lemma {:induction false} TopContactsFrame(s: CallLogsState, actions: seq<CallLogsAction>)
    requires forall i :: 0 <= i < |actions| ==> !actions[i].TopContactsFulfilled? && !actions[i].ClearCallLogs?
    ensures ReduceAll(s, actions).topContacts == s.topContacts
    decreases |actions|
  {
    if |actions| > 0 {
      TopContactsFrame(s, actions[..|actions| - 1]);
    }
  }

  /** A sequence that never fulfils `fetchCallLogs` and never clears keeps the call logs as they were. */
  lemma {:induction false} CallLogsFrame(s: CallLogsState, actions: seq<CallLogsAction>)
    requires forall i :: 0 <= i < |actions| ==> !actions[i].CallLogsFulfilled? && !actions[i].ClearCallLogs?
    ensures ReduceAll(s, actions).callLogs == s.callLogs
    decreases |actions|
  {
    if |actions| > 0 {
      CallLogsFrame(s, actions[..|actions| - 1]);
    }
  }

  /**
   * The action `fetchTopContacts` settles with: the native result, or a rejection whose
   * payload is the native promise's message.
   */
  function SettleTopContacts(cursor: Option<seq<CallLogsModule.Row>>, limit: int): (a: CallLogsAction)
    ensures Settles(a, FetchTopContacts)
    ensures a.Rejected? <==> limit < 0
  {
    match CallLogsModule.GetTopContactsByDuration(cursor, limit)
    case Success(contacts) => TopContactsFulfilled(contacts)
    case Failure(message) => Rejected(FetchTopContacts, Some(message))
  }

  /**
   * A top-contacts fetch with a negative limit leaves the call logs and previous top
   * contacts in place, stops loading and shows the native `take` message.
   */
  lemma NegativeLimitShowsTakeError(s: CallLogsState, cursor: Option<seq<CallLogsModule.Row>>, limit: int)
    requires limit < 0
    ensures var t := Reduce(Reduce(s, Pending(FetchTopContacts)), SettleTopContacts(cursor, limit));
      && !t.isLoading && t.callLogs == s.callLogs && t.topContacts == s.topContacts
      && t.error == Some(CallLogsModule.TopContactsErrorPrefix + CallLogsModule.TakeMessagePrefix
                         + IntToString(limit) + CallLogsModule.TakeMessageSuffix)
  {
  }
}
