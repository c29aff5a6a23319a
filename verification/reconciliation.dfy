/** How the pieces meet: actions queued by failed submissions, replayed by sync
    passes. Each lemma follows queue contents and remote calls across several steps. */
module Reconciliation {
  import opened Backend
  import opened OfflineQueue
  import opened Submitters
  import opened OfflineSync

  predicate AllDone(replies: seq<CallResult>, n: nat)
    requires n <= |replies|
  {
    forall i :: 0 <= i < n ==> replies[i].Done?
  }

  /** The failing call of a pass is the first rejection among the replies. */
  lemma FailureIsFirstRejection(q: seq<QueueItem>, replies: seq<CallResult>, k: nat)
    requires k < |q| <= |replies|
    requires replies[k].Rejected? && AllDone(replies, k)
    ensures Drain(q, replies).failure == Some(replies[k].error)
    ensures |Drain(q, replies).calls| == k + 1
  {
    DrainSpec(q, replies);
  }

  /** N actions queued one after another and then a pass in which the service
      accepts everything: exactly those N calls are made, in the order queued,
      and the store ends up empty. */
  lemma {:induction false} FullReplaySendsAllInOrder(st: SyncState, items: seq<QueueItem>, replies: seq<CallResult>, now: int)
    requires CanSync(st, true) && |items| > 0
    requires |replies| >= |items| && AllDone(replies, |items|)
    ensures var p := SyncPass(st, true, AppendAll(Absent, items), replies, now, true);
            && p.calls == CallsFor(items)
            && Read(p.storage) == []
            && p.state.pendingCount == 0
            && p.state.lastSyncTime == Some(now)
            && p.invalidated == AttendanceQueries
  {
    assert Read(AppendAll(Absent, items)) == items;
  }

  /** When the service rejects the k-th call the pass stops there: items 0..k
      were sent (the k-th one failing), nothing later was, and the store still
      holds every item it held before, the ones already accepted included. */
  lemma {:induction false} RejectionKeepsWholeQueue(st: SyncState, s: Storage, replies: seq<CallResult>, now: int, removeOk: bool, k: nat)
    requires CanSync(st, true)
    requires k < |Read(s)| <= |replies|
    requires replies[k].Rejected? && AllDone(replies, k)
    ensures var p := SyncPass(st, true, s, replies, now, removeOk);
            && p.calls == CallsFor(Read(s)[..k + 1])
            && p.storage == s
            && p.state == st
            && p.invalidated == {}
  {
    FailureIsFirstRejection(Read(s), replies, k);
    DrainSpec(Read(s), replies);
  }

  /** After a pass that failed part-way, the next fully accepted pass sends
      again the items the failed pass had already delivered: the service sees
      them twice. */
  lemma {:induction false} RetryResendsDeliveredItems(st: SyncState, s: Storage, first: seq<CallResult>, second: seq<CallResult>,
                                                     now1: int, now2: int, k: nat)
    requires CanSync(st, true)
    requires k < |Read(s)| <= |first| && |Read(s)| <= |second|
    requires first[k].Rejected? && AllDone(first, k) && AllDone(second, |Read(s)|)
    ensures var p1 := SyncPass(st, true, s, first, now1, true);
            var p2 := SyncPass(p1.state, true, p1.storage, second, now2, true);
            && |p1.calls| == k + 1
            && |p2.calls| == |Read(s)|
            && p2.calls[..k] == p1.calls[..k]
            && Read(p2.storage) == []
  {
    RejectionKeepsWholeQueue(st, s, first, now1, true, k);
    DrainSpec(Read(s), first);
  }

  /** A fully successful pass with the entry removed leaves nothing to do: the
      next pass makes no call and changes nothing. */
  lemma SecondPassIsIdle(st: SyncState, s: Storage, replies: seq<CallResult>, more: seq<CallResult>, now1: int, now2: int)
    requires CanSync(st, true) && Read(s) != []
    requires |replies| >= |Read(s)| && AllDone(replies, |Read(s)|)
    ensures var p1 := SyncPass(st, true, s, replies, now1, true);
            SyncPass(p1.state, true, p1.storage, more, now2, true) == Pass(p1.state, p1.storage, [], {})
  {
  }

  /** A check-in the service rejected is queued and, on the next pass the
      service accepts, sent again with the same coordinates, after everything
      queued before it. */
  lemma {:induction false} RejectedCheckInIsReplayed(st: SyncState, s: Storage, latitude: real, longitude: real, e: RemoteError,
                                                    at: int, replies: seq<CallResult>, now: int)
    requires CanSync(st, true)
    requires |replies| > |Read(s)| && AllDone(replies, |Read(s)| + 1)
    ensures var m := CheckIn(true, latitude, longitude, Rejected(e), at, true, s);
            var p := SyncPass(st, true, m.storage, replies, now, true);
            && m.error == Some(Remote(e))
            && p.calls == CallsFor(Read(s)) + [CheckInCall(latitude, longitude)]
            && Read(p.storage) == []
  {
    var m := CheckIn(true, latitude, longitude, Rejected(e), at, true, s);
    var q := Read(m.storage);
    assert q == Read(s) + [QueueItem(CheckInAt(latitude, longitude), at)];
    assert CallsFor(q) == CallsFor(Read(s)) + [CheckInCall(latitude, longitude)];
  }

  /** Two check-ins queued; the service accepts the first and rejects the
      second. Both were sent, and the store still holds both, not only the
      rejected one. */
  lemma RejectSecondKeepsBoth(st: SyncState, e: RemoteError, now: int)
    requires CanSync(st, true)
    ensures var first := QueueItem(CheckInAt(1.0, 2.0), 100);
            var second := QueueItem(CheckInAt(3.0, 4.0), 200);
            var p := SyncPass(st, true, Stored([first, second]), [Done, Rejected(e)], now, true);
            && p.calls == [CheckInCall(1.0, 2.0), CheckInCall(3.0, 4.0)]
            && Read(p.storage) == [first, second]
            && p.state.lastSyncTime == st.lastSyncTime
  {
    var q := [QueueItem(CheckInAt(1.0, 2.0), 100), QueueItem(CheckInAt(3.0, 4.0), 200)];
    RejectionKeepsWholeQueue(st, Stored(q), [Done, Rejected(e)], now, true, 1);
    assert q[..2] == q;
  }
}
