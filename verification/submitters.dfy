/** The check-in and check-out actions: try the remote call; on success mark the
    cached status and history stale; on any failure queue the action for a later
    replay and rethrow the same error to the caller. */
module Submitters {
  import opened Backend
  import opened OfflineQueue

  datatype SubmitError = ActorNotAvailable | Remote(error: RemoteError)

  /** What one user action leaves behind: the error it settled with (None when
      it resolved), the remote calls it made, the storage entry afterwards, and
      the cached queries it invalidated. */
  datatype Submission = Submission(
    error: Option<SubmitError>,
    calls: seq<Call>,
    storage: Storage,
    invalidated: set<QueryKey>)

  /** One action. `actorAvailable` says whether a remote handle exists,
      `reply` is how the remote call settles, `now` is the clock reading stamped
      on a queued item and `writeOk` whether storage accepts the append. */
  function Submit(actorAvailable: bool, action: Action, reply: CallResult, now: int, writeOk: bool, s: Storage)
    : (m: Submission)
    ensures !actorAvailable ==> m == Submission(Some(ActorNotAvailable), [], s, {})
    ensures actorAvailable ==> m.calls == [CallFor(action)]
    ensures actorAvailable && reply.Done? ==> m.error.None? && m.storage == s && m.invalidated == AttendanceQueries
    ensures actorAvailable && reply.Rejected? ==>
              && m.error == Some(Remote(reply.error))
              && m.invalidated == {}
              && (writeOk ==> Read(m.storage) == Read(s) + [QueueItem(action, now)])
              && (!writeOk ==> m.storage == s)
  {
    if !actorAvailable then Submission(Some(ActorNotAvailable), [], s, {})
    else match reply
      case Done => Submission(None, [CallFor(action)], s, AttendanceQueries)
      case Rejected(e) => Submission(Some(Remote(e)), [CallFor(action)], Append(s, QueueItem(action, now), writeOk), {})
  }

  /** Checking in at a location. */
  function CheckIn(actorAvailable: bool, latitude: real, longitude: real, reply: CallResult, now: int, writeOk: bool, s: Storage)
    : (m: Submission)
    ensures !actorAvailable ==> m.error == Some(ActorNotAvailable) && m.calls == [] && m.storage == s && m.invalidated == {}
    ensures actorAvailable ==> m.calls == [CheckInCall(latitude, longitude)]
    ensures actorAvailable && reply.Done? ==> m.error.None? && m.storage == s && m.invalidated == AttendanceQueries
    ensures actorAvailable && reply.Rejected? ==>
              && m.error == Some(Remote(reply.error))
              && m.invalidated == {}
              && (writeOk ==> Read(m.storage) == Read(s) + [QueueItem(CheckInAt(latitude, longitude), now)])
              && (!writeOk ==> m.storage == s)
  {
    Submit(actorAvailable, CheckInAt(latitude, longitude), reply, now, writeOk, s)
  }

  /** Checking out; the queued item carries no data. */
  function CheckOut(actorAvailable: bool, reply: CallResult, now: int, writeOk: bool, s: Storage)
    : (m: Submission)
    ensures !actorAvailable ==> m.error == Some(ActorNotAvailable) && m.calls == [] && m.storage == s && m.invalidated == {}
    ensures actorAvailable ==> m.calls == [CheckOutCall]
    ensures actorAvailable && reply.Done? ==> m.error.None? && m.storage == s && m.invalidated == AttendanceQueries
    ensures actorAvailable && reply.Rejected? ==>
              && m.error == Some(Remote(reply.error))
              && m.invalidated == {}
              && (writeOk ==> Read(m.storage) == Read(s) + [QueueItem(CheckOutAction, now)])
              && (!writeOk ==> m.storage == s)
  {
    Submit(actorAvailable, CheckOutAction, reply, now, writeOk, s)
  }

  /** Every failure is queued, whatever its cause: two rejections with different
      errors leave the same storage behind, and each is rethrown unchanged. */
  lemma QueueingIgnoresCause(action: Action, e1: RemoteError, e2: RemoteError, now: int, writeOk: bool, s: Storage)
    ensures Submit(true, action, Rejected(e1), now, writeOk, s).storage == Submit(true, action, Rejected(e2), now, writeOk, s).storage
    ensures Submit(true, action, Rejected(e1), now, writeOk, s).error == Some(Remote(e1))
  {
  }

  /** An action either reaches the service or is queued (or storage refused the
      append), never both: the queue grows exactly when the call was rejected. */
  lemma QueueGrowsIffRejected(action: Action, reply: CallResult, now: int, s: Storage)
    ensures |Read(Submit(true, action, reply, now, true, s).storage)| == |Read(s)| + (if reply.Rejected? then 1 else 0)
    ensures Submit(true, action, reply, now, true, s).error.None? <==> reply.Done?
  {
  }
}
