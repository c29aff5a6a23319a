/** The connectivity monitor and replay coordinator. Its state is what the
    indicator shows; a replay pass, taken as one atomic step, sends the queued
    actions in order and clears the whole store only if every call succeeded. */
module OfflineSync {
  import opened Backend
  import opened OfflineQueue

  datatype SyncState = SyncState(
    isOnline: bool,
    isSyncing: bool,
    pendingCount: nat,
    lastSyncTime: Option<int>)

  /** The state when the monitor starts, given the platform's online flag. */
  function Init(online: bool): (st: SyncState)
    ensures st.isOnline == online && !st.isSyncing && st.pendingCount == 0 && st.lastSyncTime.None?
  {
    SyncState(online, false, 0, None)
  }

  datatype Connectivity = WentOnline | WentOffline

  /** An online/offline event sets `isOnline` and nothing else. */
  function OnEvent(st: SyncState, e: Connectivity): (st': SyncState)
    ensures st'.isOnline <==> e == WentOnline
    ensures st' == st.(isOnline := st'.isOnline)
  {
    st.(isOnline := e == WentOnline)
  }

  function OnEvents(st: SyncState, es: seq<Connectivity>): SyncState
    decreases |es|
  {
    if |es| == 0 then st else OnEvents(OnEvent(st, es[0]), es[1..])
  }

  /** After any run of events `isOnline` reflects the most recent one (or is
      unchanged if there was none), and nothing else has moved. */
  lemma {:induction false} OnlineFollowsLastEvent(st: SyncState, es: seq<Connectivity>)
    ensures OnEvents(st, es).isOnline == (if |es| == 0 then st.isOnline else es[|es| - 1] == WentOnline)
    ensures OnEvents(st, es) == st.(isOnline := OnEvents(st, es).isOnline)
    decreases |es|
  {
    if |es| > 0 {
      OnlineFollowsLastEvent(OnEvent(st, es[0]), es[1..]);
    }
  }

  /** The periodic poll: `pendingCount` becomes the length of the queue as read now. */
  function Poll(st: SyncState, s: Storage): (st': SyncState)
    ensures st'.pendingCount == |Read(s)|
    ensures st' == st.(pendingCount := |Read(s)|)
  {
    st.(pendingCount := |Read(s)|)
  }

  /** How a sequence of sends went: the calls made, in order, and the error of
      the call that stopped the sequence, if one did. */
  datatype Drained = Drained(calls: seq<Call>, failure: Option<RemoteError>)

  /** Send the items of `q` in order, the i-th call settling as `replies[i]`,
      and stop at the first rejection. */
  function Drain(q: seq<QueueItem>, replies: seq<CallResult>): Drained
    requires |replies| >= |q|
    decreases |q|
  {
    if |q| == 0 then Drained([], None)
    else match replies[0]
      case Rejected(e) => Drained([CallFor(q[0].action)], Some(e))
      case Done =>
        var rest := Drain(q[1..], replies[1..]);
        Drained([CallFor(q[0].action)] + rest.calls, rest.failure)
  }

  /** A pass fails exactly when some reply is a rejection, and then at the
      first one: every call before it succeeded and no call follows it. The
      calls made are those of the queue's first items, in queue order. */
  lemma {:induction false} DrainSpec(q: seq<QueueItem>, replies: seq<CallResult>)
    requires |replies| >= |q|
    ensures var d := Drain(q, replies);
            && (d.failure.None? <==> forall i :: 0 <= i < |q| ==> replies[i].Done?)
            && (d.failure.None? ==> |d.calls| == |q|)
            && (d.failure.Some? ==>
                  && 0 < |d.calls| <= |q|
                  && replies[|d.calls| - 1] == Rejected(d.failure.value)
                  && forall i :: 0 <= i < |d.calls| - 1 ==> replies[i].Done?)
            && |d.calls| <= |q|
            && forall i :: 0 <= i < |d.calls| ==> d.calls[i] == CallFor(q[i].action)
    decreases |q|
  {
    if |q| > 0 && replies[0].Done? {
      DrainSpec(q[1..], replies[1..]);
      var rest := Drain(q[1..], replies[1..]);
      assert forall i :: 1 <= i < |q| ==> q[1..][i - 1] == q[i] && replies[1..][i - 1] == replies[i];
    }
  }

  /** After sending the first `i` items as `calls` without a rejection, the
      whole pass goes as the rest of the queue goes. */
  ghost predicate Resumes(q: seq<QueueItem>, replies: seq<CallResult>, i: nat, calls: seq<Call>)
    requires i <= |q| <= |replies|
  {
    var rest := Drain(q[i..], replies[i..]);
    Drain(q, replies) == Drained(calls + rest.calls, rest.failure)
  }

  /** One step of the replay loop keeps `Resumes`, or ends the pass at a rejection. */
  lemma DrainStep(q: seq<QueueItem>, replies: seq<CallResult>, i: nat, calls: seq<Call>)
    requires i < |q| <= |replies|
    requires Resumes(q, replies, i, calls)
    ensures replies[i].Rejected? ==> Drain(q, replies) == Drained(calls + [CallFor(q[i].action)], Some(replies[i].error))
    ensures replies[i].Done? ==> Resumes(q, replies, i + 1, calls + [CallFor(q[i].action)])
  {
    assert q[i..][0] == q[i] && replies[i..][0] == replies[i];
    assert q[i..][1..] == q[i + 1..] && replies[i..][1..] == replies[i + 1..];
    if replies[i].Done? {
      var rest := Drain(q[i + 1..], replies[i + 1..]);
      assert calls + ([CallFor(q[i].action)] + rest.calls) == calls + [CallFor(q[i].action)] + rest.calls;
    }
  }

  /** The replay loop as written: one awaited call per item in queue order,
      leaving the loop at the first call that throws. */
  method SendInOrder(q: seq<QueueItem>, replies: seq<CallResult>) returns (calls: seq<Call>, failure: Option<RemoteError>)
    requires |replies| >= |q|
    ensures calls == Drain(q, replies).calls
    ensures failure == Drain(q, replies).failure
    ensures failure.None? <==> forall i :: 0 <= i < |q| ==> replies[i].Done?
    ensures |calls| <= |q| && forall i :: 0 <= i < |calls| ==> calls[i] == CallFor(q[i].action)
  {
    DrainSpec(q, replies);
    calls := [];
    failure := None;
    var i := 0;
    assert q[0..] == q && replies[0..] == replies;
    while i < |q|
      invariant 0 <= i <= |q|
      invariant Resumes(q, replies, i, calls)
    {
      DrainStep(q, replies, i, calls);
      calls := calls + [CallFor(q[i].action)];
      if replies[i].Rejected? {
        failure := Some(replies[i].error);
        return;
      }
      i := i + 1;
    }
    assert q[i..] == [] && replies[i..] == replies[|q|..];
  }

  /** What one replay pass leaves behind. */
  datatype Pass = Pass(state: SyncState, storage: Storage, calls: seq<Call>, invalidated: set<QueryKey>)

  /** The guard: online, a remote handle, and no pass already running. */
  predicate CanSync(st: SyncState, actorAvailable: bool)
  {
    st.isOnline && actorAvailable && !st.isSyncing
  }

  /** One replay pass. `replies` answers the calls in the order they are made,
      `now` is the clock reading recorded on success and `removeOk` whether
      storage accepts the removal of the entry. */
  function SyncPass(st: SyncState, actorAvailable: bool, s: Storage, replies: seq<CallResult>, now: int, removeOk: bool)
    : (p: Pass)
    requires |replies| >= |Read(s)|
    ensures !CanSync(st, actorAvailable) || Read(s) == [] ==> p == Pass(st, s, [], {})
    ensures p.calls == [] || (CanSync(st, actorAvailable) && p.calls == Drain(Read(s), replies).calls)
    ensures CanSync(st, actorAvailable) && Read(s) != [] ==>
              && !p.state.isSyncing
              && p.state.isOnline == st.isOnline
              && ((forall i :: 0 <= i < |Read(s)| ==> replies[i].Done?) ==>
                    && p.calls == CallsFor(Read(s))
                    && p.storage == Clear(s, removeOk)
                    && p.state.pendingCount == 0
                    && p.state.lastSyncTime == Some(now)
                    && p.invalidated == AttendanceQueries)
              && ((exists i :: 0 <= i < |Read(s)| && replies[i].Rejected?) ==>
                    && p.storage == s
                    && p.state == st
                    && p.invalidated == {})
  {
    if !CanSync(st, actorAvailable) then Pass(st, s, [], {})
    else
      var q := Read(s);
      if |q| == 0 then Pass(st, s, [], {})
      else
        var d := Drain(q, replies);
        DrainSpec(q, replies);
        match d.failure
        case None =>
          Pass(st.(isSyncing := false, pendingCount := 0, lastSyncTime := Some(now)),
               Clear(s, removeOk), d.calls, AttendanceQueries)
        case Some(_) =>
          Pass(st.(isSyncing := false), s, d.calls, {})
  }
}
