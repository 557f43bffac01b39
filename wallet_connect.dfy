/** The WalletConnect status machine (src/features/walletConnect/walletConnectSlice.ts).
    The slice holds a status, the pairing uri, the session, the pending request
    and the last error. Payloads typed `any` in the source are carried as
    opaque text; `Date.now()` is passed in with the action that reads it. */
module WalletConnect {
  import opened Common

  type Payload = string

  datatype WalletConnectStatus =
    | Disconnected | Initializing | SessionPending | SessionActive
    | RequestPending | RequestActive | RequestComplete | RequestFailed | Error

  datatype SessionStatus = Pending | Settled

  /** `WalletConnectSession`: a proposed session has no start time. */
  datatype Session = Session(status: SessionStatus, data: Payload, startTime: Option<int>)

  datatype WcState = WcState(
    status: WalletConnectStatus,
    uri: Option<string>,
    session: Option<Session>,
    request: Option<Payload>,
    error: Option<string>)

  /** `walletConnectsInitialState`. */
  const InitialState := WcState(Disconnected, None, None, None, None)

  /** Every action the slice declares; five of them have no case. */
  datatype WcAction =
    | InitializeWcClient(uri: string)
    | ProposeWcSession(proposal: Payload)
    | ApproveWcSession
    | RejectWcSession
    | CreateWcSession(data: Payload, now: int)
    | UpdateWcSession(update: Payload)
    | DeleteWcSession(reason: Payload)
    | FailWcSession(message: string)
    | RequestFromWc(request: Payload)
    | ApproveWcRequest
    | RejectWcRequest
    | CompleteWcRequest
    | FailWcRequest(message: string)
    | DismissWcRequest
    | DisconnectWcClient
    | ResetWcClient

  /** The actions the reducer has no case for. */
  predicate Unhandled(a: WcAction)
  {
    a.ApproveWcSession? || a.RejectWcSession? || a.UpdateWcSession? || a.DeleteWcSession? || a.RejectWcRequest?
  }

  /** The reducer, one case per `addCase`. */
  function Reduce(s: WcState, a: WcAction): (r: WcState)
    ensures ErrorReported(s) ==> ErrorReported(r)
    ensures r.status != s.status ==> !Unhandled(a)
  {
    match a
    case InitializeWcClient(u) => s.(status := Initializing, uri := Some(u))
    case ProposeWcSession(d) => s.(status := SessionPending, session := Some(Session(Pending, d, None)))
    case CreateWcSession(d, now) => s.(status := SessionActive, session := Some(Session(Settled, d, Some(now))))
    case FailWcSession(e) => s.(status := Error, error := Some(e))
    case RequestFromWc(r) => s.(status := RequestPending, request := Some(r))
    case ApproveWcRequest => s.(status := RequestActive)
    case CompleteWcRequest => s.(status := RequestComplete)
    case FailWcRequest(e) => s.(status := RequestFailed, error := Some(e))
    case DismissWcRequest => s.(status := SessionActive, request := None, error := None)
    case DisconnectWcClient =>
      if s.status != Error then InitialState
      else InitialState.(status := s.status, error := s.error)
    case ResetWcClient => InitialState
    case _ => s
  }

  /** The store applying a sequence of dispatched actions. */
  function ReduceAll(s: WcState, actions: seq<WcAction>): WcState
    decreases |actions|
  {
    if actions == [] then s else ReduceAll(Reduce(s, actions[0]), actions[1..])
  }

  lemma InitializeChangesOnlyStatusAndUri(s: WcState, u: string)
    ensures Reduce(s, InitializeWcClient(u)) == s.(status := Initializing, uri := Some(u))
  {
  }

  lemma SessionTransitions(s: WcState, d: Payload, now: int)
    ensures var r := Reduce(s, ProposeWcSession(d));
      r.status == SessionPending && r.session == Some(Session(Pending, d, None))
      && r.uri == s.uri && r.request == s.request && r.error == s.error
    ensures var r := Reduce(s, CreateWcSession(d, now));
      r.status == SessionActive && r.session == Some(Session(Settled, d, Some(now)))
      && r.uri == s.uri && r.request == s.request && r.error == s.error
  {
  }

  lemma FailuresRecordTheError(s: WcState, e: string)
    ensures Reduce(s, FailWcSession(e)) == s.(status := Error, error := Some(e))
    ensures Reduce(s, FailWcRequest(e)) == s.(status := RequestFailed, error := Some(e))
  {
  }

  lemma RequestTransitions(s: WcState, req: Payload)
    ensures Reduce(s, RequestFromWc(req)) == s.(status := RequestPending, request := Some(req))
    ensures Reduce(s, ApproveWcRequest) == s.(status := RequestActive)
    ensures Reduce(s, CompleteWcRequest) == s.(status := RequestComplete)
  {
  }

  lemma DismissClearsRequestAndError(s: WcState)
    ensures var r := Reduce(s, DismissWcRequest);
      r.status == SessionActive && r.request.None? && r.error.None?
      && r.uri == s.uri && r.session == s.session
  {
  }

  /** Disconnect yields the initial state, except that an Error status and its
      message survive; applying it twice is the same as once. */
  lemma DisconnectKeepsOnlyError(s: WcState)
    ensures s.status != Error ==> Reduce(s, DisconnectWcClient) == InitialState
    ensures s.status == Error ==> Reduce(s, DisconnectWcClient) == WcState(Error, None, None, None, s.error)
    ensures Reduce(Reduce(s, DisconnectWcClient), DisconnectWcClient) == Reduce(s, DisconnectWcClient)
  {
  }

  lemma ResetIsInitial(s: WcState)
    ensures Reduce(s, ResetWcClient) == InitialState
    ensures InitialState.status == Disconnected && InitialState.uri.None? && InitialState.session.None?
    ensures InitialState.request.None? && InitialState.error.None?
  {
  }

  lemma UnhandledActionsChangeNothing(s: WcState, a: WcAction)
    requires Unhandled(a)
    ensures Reduce(s, a) == s
  {
  }

  /** Transitions are unconditional: apart from disconnect, no case reads the
      current status, so two states that differ only in status step to
      states that differ at most in status. */
  lemma TransitionsIgnoreStatus(s1: WcState, s2: WcState, a: WcAction)
    requires !a.DisconnectWcClient?
    requires s1.(status := s2.status) == s2
    ensures Reduce(s1, a).(status := Reduce(s2, a).status) == Reduce(s2, a)
    ensures !Unhandled(a) ==> Reduce(s1, a) == Reduce(s2, a)
  {
  }

  /** A failure status always carries its message. */
  predicate ErrorReported(s: WcState)
  {
    (s.status == Error || s.status == RequestFailed) ==> s.error.Some?
  }

  /** `ErrorReported` holds from the initial state on, whatever is dispatched. */
  lemma {:induction false} ErrorReportedInvariant(s: WcState, actions: seq<WcAction>)
    requires ErrorReported(s)
    ensures ErrorReported(ReduceAll(s, actions))
    decreases |actions|
  {
    if actions != [] {
      assert ErrorReported(Reduce(s, actions[0]));
      ErrorReportedInvariant(Reduce(s, actions[0]), actions[1..]);
    }
  }

  /** After a reset the state no longer depends on anything before it. */
  lemma {:induction false} ResetForgetsHistory(s1: WcState, s2: WcState, before: seq<WcAction>, after: seq<WcAction>)
    ensures ReduceAll(s1, before + [ResetWcClient] + after) == ReduceAll(s2, [ResetWcClient] + after)
    decreases |before|
  {
    if before == [] {
      assert before + [ResetWcClient] + after == [ResetWcClient] + after;
      assert ([ResetWcClient] + after)[1..] == after;
    } else {
      assert (before + [ResetWcClient] + after)[0] == before[0];
      assert (before + [ResetWcClient] + after)[1..] == before[1..] + [ResetWcClient] + after;
      ResetForgetsHistory(Reduce(s1, before[0]), s2, before[1..], after);
    }
  }

  /** The slice as the store holds it; each case assigns fields of the draft
      in place, disconnect and reset replace the whole state. */
  class WalletConnectSlice {
    var status: WalletConnectStatus
    var uri: Option<string>
    var session: Option<Session>
    var request: Option<Payload>
    var error: Option<string>

    function View(): WcState
      reads this
    {
      WcState(status, uri, session, request, error)
    }

    constructor ()
      ensures View() == InitialState
    {
      status, uri, session, request, error := Disconnected, None, None, None, None;
    }

    method Dispatch(a: WcAction)
      modifies this
      ensures View() == Reduce(old(View()), a)
      ensures ErrorReported(old(View())) ==> ErrorReported(View())
    {
      match a {
        case InitializeWcClient(u) =>
          status := Initializing;
          uri := Some(u);
        case ProposeWcSession(d) =>
          status := SessionPending;
          session := Some(Session(Pending, d, None));
        case CreateWcSession(d, now) =>
          status := SessionActive;
          session := Some(Session(Settled, d, Some(now)));
        case FailWcSession(e) =>
          status := Error;
          error := Some(e);
        case RequestFromWc(r) =>
          status := RequestPending;
          request := Some(r);
        case ApproveWcRequest =>
          status := RequestActive;
        case CompleteWcRequest =>
          status := RequestComplete;
        case FailWcRequest(e) =>
          status := RequestFailed;
          error := Some(e);
        case DismissWcRequest =>
          status := SessionActive;
          request := None;
          error := None;
        case DisconnectWcClient =>
          if status != Error {
            status, uri, session, request, error := Disconnected, None, None, None, None;
          } else {
            uri, session, request := None, None, None;
          }
        case ResetWcClient =>
          status, uri, session, request, error := Disconnected, None, None, None, None;
        case _ =>
      }
    }
  }
}
