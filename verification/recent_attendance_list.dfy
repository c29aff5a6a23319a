/** The "Recent Attendance" card: the history sorted by check-in time, newest
    first, cut to ten rows, each row showing hours worked only when the record
    has a check-out time. */
module RecentAttendanceList {
  import opened Backend
  import Seqs

  const MaxRows: nat := 10

  predicate NonIncreasing(s: seq<AttendanceRecord>)
  {
    forall i, j :: 0 <= i < j < |s| ==> s[i].checkInTime >= s[j].checkInTime
  }

  /** A record no older than the head of a newest-first sequence can lead it. */
  lemma ConsNonIncreasing(y: AttendanceRecord, t: seq<AttendanceRecord>)
    requires NonIncreasing(t)
    requires |t| > 0 ==> y.checkInTime >= t[0].checkInTime
    ensures NonIncreasing([y] + t)
  {
    var u := [y] + t;
    forall i, j | 0 <= i < j < |u| ensures u[i].checkInTime >= u[j].checkInTime {
      if i > 0 {
        assert u[i] == t[i - 1] && u[j] == t[j - 1];
      } else {
        assert u[j] == t[j - 1];
      }
    }
  }

  /** Insert `x` before the first record that is not newer than it, so `x`
      precedes records with an equal check-in time. */
  function Insert(x: AttendanceRecord, s: seq<AttendanceRecord>): (t: seq<AttendanceRecord>)
    requires NonIncreasing(s)
    ensures |t| == |s| + 1
    ensures multiset(t) == multiset{x} + multiset(s)
    ensures NonIncreasing(t)
    ensures t[0] == x || (|s| > 0 && t[0] == s[0])
    decreases |s|
  {
    if |s| == 0 || x.checkInTime >= s[0].checkInTime then
      ConsNonIncreasing(x, s);
      [x] + s
    else
      assert NonIncreasing(s[1..]) by {
        forall i, j | 0 <= i < j < |s[1..]| ensures s[1..][i].checkInTime >= s[1..][j].checkInTime {
          assert s[1..][i] == s[i + 1] && s[1..][j] == s[j + 1];
        }
      }
      var rest := Insert(x, s[1..]);
      assert s == [s[0]] + s[1..];
      // rest starts with x or with s[1], and neither is newer than s[0]
      ConsNonIncreasing(s[0], rest);
      [s[0]] + rest
  }

  /** The copy sorted by check-in time, newest first. The comparator returns
      the sign of the difference, and the platform's sort is stable. */
  function SortNewestFirst(s: seq<AttendanceRecord>): (t: seq<AttendanceRecord>)
    ensures |t| == |s|
    ensures multiset(t) == multiset(s)
    ensures NonIncreasing(t)
    decreases |s|
  {
    if |s| == 0 then []
    else
      assert s == [s[0]] + s[1..];
      Insert(s[0], SortNewestFirst(s[1..]))
  }

  predicate HasKey(k: Time, r: AttendanceRecord)
  {
    r.checkInTime == k
  }

  /** The records of `s` checked in at time `k`, in their order in `s`. */
  function AtTime(k: Time, s: seq<AttendanceRecord>): seq<AttendanceRecord>
  {
    Seqs.Filter(r => HasKey(k, r), s)
  }

  lemma {:induction false} InsertStable(k: Time, x: AttendanceRecord, s: seq<AttendanceRecord>)
    requires NonIncreasing(s)
    ensures AtTime(k, Insert(x, s)) == AtTime(k, [x] + s)
    decreases |s|
  {
    var p := (r: AttendanceRecord) => HasKey(k, r);
    if |s| > 0 && x.checkInTime < s[0].checkInTime {
      var s0, s1 := s[0], s[1..];
      var moved := Insert(x, s1);
      assert s == [s0] + s1;
      assert Insert(x, s) == [s0] + moved;
      InsertStable(k, x, s1);
      Seqs.FilterCons(p, s0, moved);
      Seqs.FilterCons(p, x, s1);
      Seqs.FilterCons(p, x, s);
      Seqs.FilterCons(p, s0, s1);
      if p(x) {
        // s[0] checks in later than x, so it does not share x's key
        assert !p(s0);
        assert Seqs.Filter(p, [s0] + moved) == Seqs.Filter(p, moved);
        assert Seqs.Filter(p, s) == Seqs.Filter(p, s1);
      } else {
        assert Seqs.Filter(p, [x] + s) == Seqs.Filter(p, s);
        assert Seqs.Filter(p, [x] + s1) == Seqs.Filter(p, s1);
      }
    }
  }

  /** The sort is stable: the records sharing any one check-in time come out in
      the order they went in. */
  lemma {:induction false} SortIsStable(k: Time, s: seq<AttendanceRecord>)
    ensures AtTime(k, SortNewestFirst(s)) == AtTime(k, s)
    decreases |s|
  {
    if |s| > 0 {
      var p := (r: AttendanceRecord) => HasKey(k, r);
      SortIsStable(k, s[1..]);
      InsertStable(k, s[0], SortNewestFirst(s[1..]));
      Seqs.FilterConcat(p, [s[0]], SortNewestFirst(s[1..]));
      Seqs.FilterConcat(p, [s[0]], s[1..]);
      assert s == [s[0]] + s[1..];
    }
  }

  datatype Row = Row(record: AttendanceRecord, showsHours: bool)

  datatype View = Loading | NoRecords | Rows(rows: seq<Row>)

  function RowRecords(rows: seq<Row>): (rs: seq<AttendanceRecord>)
    ensures |rs| == |rows|
    ensures forall i :: 0 <= i < |rows| ==> rs[i] == rows[i].record
  {
    seq(|rows|, i requires 0 <= i < |rows| => rows[i].record)
  }

  /** One row per record, with hours worked shown when JavaScript reads the
      check-out time as present. */
  function RowsFor(rs: seq<AttendanceRecord>): (rows: seq<Row>)
    ensures RowRecords(rows) == rs
    ensures forall i :: 0 <= i < |rows| ==> (rows[i].showsHours <==> HasTime(rows[i].record.checkOutTime))
  {
    var rows := seq(|rs|, i requires 0 <= i < |rs| => Row(rs[i], HasTime(rs[i].checkOutTime)));
    assert RowRecords(rows) == rs;
    rows
  }

  lemma PrefixIsSubMultiset(s: seq<AttendanceRecord>, n: nat)
    requires n <= |s|
    ensures multiset(s[..n]) <= multiset(s)
  {
    assert s == s[..n] + s[n..];
  }

  /** In a newest-first sequence, whatever is newer than one of the first `n`
      is itself among the first `n`. */
  lemma NewerIsInPrefix(sorted: seq<AttendanceRecord>, n: nat, x: AttendanceRecord, i: nat)
    requires NonIncreasing(sorted) && i < n <= |sorted|
    requires x in sorted && x.checkInTime > sorted[i].checkInTime
    ensures x in sorted[..n]
  {
    var m :| 0 <= m < |sorted| && sorted[m] == x;
    assert sorted[..n][m] == x;
  }

  /** Any record newer than one of the first `n` of its newest-first
      arrangement is among those `n`. */
  lemma PrefixHoldsNewer(records: seq<AttendanceRecord>, sorted: seq<AttendanceRecord>, n: nat)
    requires multiset(sorted) == multiset(records) && NonIncreasing(sorted) && n <= |sorted|
    ensures forall j, i ::
              0 <= j < |records| && 0 <= i < n && records[j].checkInTime > sorted[i].checkInTime
              ==> records[j] in sorted[..n]
  {
    forall j, i | 0 <= j < |records| && 0 <= i < n && records[j].checkInTime > sorted[i].checkInTime
      ensures records[j] in sorted[..n]
    {
      assert records[j] in multiset(records);
      NewerIsInPrefix(sorted, n, records[j], i);
    }
  }

  /** Cutting a newest-first sequence keeps, for each check-in time, a prefix
      of the records with that time, and all of them for times later than the
      last record kept. */
  lemma PrefixAtTime(k: Time, sorted: seq<AttendanceRecord>, n: nat)
    requires NonIncreasing(sorted) && n <= |sorted|
    ensures AtTime(k, sorted[..n]) <= AtTime(k, sorted)
    ensures 0 < n && k > sorted[n - 1].checkInTime ==> AtTime(k, sorted[..n]) == AtTime(k, sorted)
  {
    var p := (r: AttendanceRecord) => HasKey(k, r);
    var rest := sorted[n..];
    assert sorted == sorted[..n] + rest;
    Seqs.FilterConcat(p, sorted[..n], rest);
    if 0 < n && k > sorted[n - 1].checkInTime {
      forall i | 0 <= i < |rest| ensures !p(rest[i]) {
        assert rest[i] == sorted[n + i];
      }
      Seqs.FilterMembers(p, rest);
    }
  }

  /** The records the card lists: the sorted copy cut to its first `MaxRows`.
      They are the newest records: one that checked in later than any record
      listed is itself listed. Among records sharing a check-in time the
      earliest in the input are listed first, and the list keeps every record
      checked in later than the last one listed, duplicates included. */
  function Newest(records: seq<AttendanceRecord>): (shown: seq<AttendanceRecord>)
    ensures |shown| == if |records| < MaxRows then |records| else MaxRows
    ensures NonIncreasing(shown)
    ensures multiset(shown) <= multiset(records)
    ensures forall j, i ::
              0 <= j < |records| && 0 <= i < |shown| && records[j].checkInTime > shown[i].checkInTime
              ==> records[j] in shown
    ensures forall k :: AtTime(k, shown) <= AtTime(k, records)
    ensures forall k :: 0 < |shown| && k > shown[|shown| - 1].checkInTime ==> AtTime(k, shown) == AtTime(k, records)
  {
    var sorted := SortNewestFirst(records);
    var n := if |sorted| < MaxRows then |sorted| else MaxRows;
    PrefixIsSubMultiset(sorted, n);
    PrefixHoldsNewer(records, sorted, n);
    forall k
      ensures AtTime(k, sorted[..n]) <= AtTime(k, records)
      ensures 0 < n && k > sorted[n - 1].checkInTime ==> AtTime(k, sorted[..n]) == AtTime(k, records)
    {
      SortIsStable(k, records);
      PrefixAtTime(k, sorted, n);
    }
    sorted[..n]
  }

  /** The card for the history query's state. `records` is None while the
      query has no data. */
  function Render(isLoading: bool, records: Option<seq<AttendanceRecord>>): (v: View)
    ensures isLoading <==> v.Loading?
    ensures v.NoRecords? <==> !isLoading && (records.None? || records.value == [])
    ensures v.Rows? ==> records.Some? && RowRecords(v.rows) == Newest(records.value)
    ensures v.Rows? ==> |v.rows| == if |records.value| < MaxRows then |records.value| else MaxRows
    ensures v.Rows? ==> forall i :: 0 <= i < |v.rows| ==> (v.rows[i].showsHours <==> HasTime(v.rows[i].record.checkOutTime))
  {
    if isLoading then Loading
    else if records.None? || |records.value| == 0 then NoRecords
    else Rows(RowsFor(Newest(records.value)))
  }
}
