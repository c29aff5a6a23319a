/** The remote attendance service as the front end sees it: the record types of
    its typed interface, the two action calls the offline queue replays, and the
    outcome of a call, which the model receives from the environment. */
module Backend {

  datatype Option<+T> = None | Some(value: T)

  /** Nanoseconds since the Unix epoch (a `bigint` on the wire). */
  type Time = int

  /** Latitude and longitude are carried, never computed with. */
  datatype Location = Location(latitude: real, longitude: real)

  datatype AttendanceRecord = AttendanceRecord(
    checkInTime: Time,
    checkOutTime: Option<Time>,
    location: Location)

  /** JavaScript truthiness of an optional `bigint`: absent and `0n` are both falsy.
      The front end tests `checkOutTime` this way wherever it asks "checked out?". */
  predicate HasTime(t: Option<Time>)
  {
    t.Some? && t.value != 0
  }

  /** Whatever a failed remote call throws; the front end cannot tell a lost
      connection from a rejection by the service. */
  datatype RemoteError = RemoteError(reason: string)

  /** How one remote call settles. */
  datatype CallResult = Done | Rejected(error: RemoteError)

  /** The two remote operations the offline queue deals in. */
  datatype Call = CheckInCall(latitude: real, longitude: real) | CheckOutCall

  /** Cached reads that a successful action makes stale. */
  datatype QueryKey = CurrentAttendanceStatus | CallerAttendanceHistory

  const AttendanceQueries: set<QueryKey> := {CurrentAttendanceStatus, CallerAttendanceHistory}
}
