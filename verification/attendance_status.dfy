/** Whether the signed-in employee is checked in right now, derived from the
    month's attendance records: keep the records whose check-in falls on
    today's local date, take the last of them, and report "checked in" when it
    has no check-out time. */
module AttendanceStatus {
  import opened Backend
  import Seqs

  const NanosPerMilli: int := 1_000_000

  /** Nanoseconds to milliseconds with `bigint` division, which truncates toward zero. */
  function NanosToMillis(t: Time): (ms: int)
    ensures t >= 0 ==> ms * NanosPerMilli <= t < (ms + 1) * NanosPerMilli
    ensures t < 0 ==> (ms - 1) * NanosPerMilli < t <= ms * NanosPerMilli
  {
    if t >= 0 then t / NanosPerMilli else -((-t) / NanosPerMilli)
  }

  /** A record is today's when the local midnight before its check-in instant
      is the local midnight before `nowMs`. `startOfDay` stands for the
      platform's local-time calendar and is otherwise unconstrained. */
  predicate IsToday(startOfDay: int -> int, nowMs: int, r: AttendanceRecord)
  {
    startOfDay(NanosToMillis(r.checkInTime)) == startOfDay(nowMs)
  }

  /** Today's records, in the order the service returned them. */
  function TodayRecords(startOfDay: int -> int, nowMs: int, records: seq<AttendanceRecord>): (r: seq<AttendanceRecord>)
    ensures forall i :: 0 <= i < |r| ==> r[i] in records && IsToday(startOfDay, nowMs, r[i])
    ensures forall i :: 0 <= i < |records| && IsToday(startOfDay, nowMs, records[i]) ==> records[i] in r
  {
    Seqs.FilterMembers(x => IsToday(startOfDay, nowMs, x), records);
    Seqs.Filter(x => IsToday(startOfDay, nowMs, x), records)
  }

  /** Selection keeps the service's order: the records of today among `a + b`
      are today's records of `a` followed by today's records of `b`. */
  lemma TodayRecordsKeepOrder(startOfDay: int -> int, nowMs: int, a: seq<AttendanceRecord>, b: seq<AttendanceRecord>)
    ensures TodayRecords(startOfDay, nowMs, a + b) == TodayRecords(startOfDay, nowMs, a) + TodayRecords(startOfDay, nowMs, b)
  {
    Seqs.FilterConcat(x => IsToday(startOfDay, nowMs, x), a, b);
  }

  /** A single record is kept once when it is today's and dropped otherwise;
      with `TodayRecordsKeepOrder` this fixes the selection of any list. */
  lemma TodayRecordsOfOne(startOfDay: int -> int, nowMs: int, x: AttendanceRecord)
    ensures TodayRecords(startOfDay, nowMs, [x]) == if IsToday(startOfDay, nowMs, x) then [x] else []
  {
    Seqs.FilterCons(x => IsToday(startOfDay, nowMs, x), x, []);
    assert [x] + [] == [x];
  }

  datatype Status = Status(isCheckedIn: bool, lastRecord: Option<AttendanceRecord>)

  const NotCheckedIn: Status := Status(false, None)

  /** The status query. `records` is what the service returns for the current
      month; it is only consulted when a remote handle and an identity exist. */
  function CurrentStatus(actorAvailable: bool, identityAvailable: bool, records: seq<AttendanceRecord>,
                         startOfDay: int -> int, nowMs: int): (st: Status)
    ensures !actorAvailable || !identityAvailable || |records| == 0 ==> st == NotCheckedIn
    ensures st.lastRecord.None? ==> !st.isCheckedIn
    ensures st.lastRecord.Some? ==> (st.isCheckedIn <==> !HasTime(st.lastRecord.value.checkOutTime))
    ensures st.lastRecord.None? <==>
              !actorAvailable || !identityAvailable || forall i :: 0 <= i < |records| ==> !IsToday(startOfDay, nowMs, records[i])
    ensures st.lastRecord.Some? ==>
              exists j :: && 0 <= j < |records|
                          && records[j] == st.lastRecord.value
                          && IsToday(startOfDay, nowMs, records[j])
                          && forall i :: j < i < |records| ==> !IsToday(startOfDay, nowMs, records[i])
  {
    if !actorAvailable || !identityAvailable then NotCheckedIn
    else if |records| == 0 then NotCheckedIn
    else
      var today := TodayRecords(startOfDay, nowMs, records);
      if |today| == 0 then NotCheckedIn
      else
        var last := today[|today| - 1];
        Seqs.FilterLast(x => IsToday(startOfDay, nowMs, x), records);
        Status(!HasTime(last.checkOutTime), Some(last))
  }

  /** Apart from a check-out stamped at the epoch itself (which JavaScript reads
      as absent), "checked in" means the last record of today has no check-out. */
  lemma CheckedInIffNoCheckOut(actorAvailable: bool, identityAvailable: bool, records: seq<AttendanceRecord>,
                               startOfDay: int -> int, nowMs: int)
    requires CurrentStatus(actorAvailable, identityAvailable, records, startOfDay, nowMs).lastRecord.Some?
    requires CurrentStatus(actorAvailable, identityAvailable, records, startOfDay, nowMs).lastRecord.value.checkOutTime != Some(0)
    ensures var st := CurrentStatus(actorAvailable, identityAvailable, records, startOfDay, nowMs);
            st.isCheckedIn <==> st.lastRecord.value.checkOutTime.None?
  {
  }

  /** The last record of the day is taken by position, not by time: when the
      service lists a later check-in first, the earlier one is reported. */
  lemma LastByPositionNotByTime()
    ensures var early := AttendanceRecord(9_000_000_000, None, Location(0.0, 0.0));
            var late := AttendanceRecord(10_000_000_000, Some(11_000_000_000), Location(0.0, 0.0));
            CurrentStatus(true, true, [late, early], _ => 0, 0) == Status(true, Some(early))
  {
    var early := AttendanceRecord(9_000_000_000, None, Location(0.0, 0.0));
    var late := AttendanceRecord(10_000_000_000, Some(11_000_000_000), Location(0.0, 0.0));
    var today := TodayRecords(_ => 0, 0, [late, early]);
    assert Seqs.Filter((x: AttendanceRecord) => IsToday(_ => 0, 0, x), [early]) == [early];
    assert today == [late, early];
  }
}
