# Offline attendance queue — a Dafny model

This project models the one piece of logic in the attendance tracker's web
front end that is more than rendering: the **offline attendance-action queue**
and the code around it.

- **Queue store** (`OfflineQueue`): a FIFO list of `{action, timestamp}` items
  kept under the single storage key `attendance_offline_queue`. Reading a
  missing or unreadable entry gives the empty queue. Appending reads the list,
  pushes the item and rewrites the whole list. A refused write or removal is
  swallowed. Storage is the abstract value `Absent | Corrupt | Stored(items)`.
  Whether the storage accepts a write is a boolean parameter.
- **Action submitters** (`Submitters`): check-in and check-out try the remote
  call. On success they invalidate the cached status and history queries. On any
  failure they append exactly one matching item and rethrow the same error.
  Without a remote handle they fail at once and touch nothing.
- **Connectivity monitor and replay coordinator** (`OfflineSync`): the state
  `isOnline`, `isSyncing`, `pendingCount` and `lastSyncTime`; online and offline
  events; the periodic pending-count poll; and the replay pass. A pass runs only
  when online, with a remote handle and with no pass already running. It reads
  the queue and sends the items strictly in order. It stops at the first
  rejected call and then leaves the store untouched. Only a pass in which every
  call succeeds clears the store (all of it at once), sets `pendingCount` to 0,
  records `lastSyncTime` and invalidates the two cached queries.
- **Attendance status** (`AttendanceStatus`): from the month's records, keep
  those whose check-in falls on today's local date, in the service's order. Take
  the last of them. Report "checked in" when that record's check-out time is
  falsy.
- **Recent attendance card** (`RecentAttendanceList`): a stable sort of the
  history by check-in time, newest first, cut to 10 rows. Hours worked are shown
  exactly when the check-out time is truthy.
- **Reconciliation**: lemmas that follow items through submission and replay.

The remote service is an oracle. A single submission receives one
`CallResult`. A replay pass receives a sequence of them, and the i-th call of
the pass settles as the i-th entry. The clock (`now`, `nowMs`), the platform's
online flag, whether a remote handle or identity exists, and the month's records
returned by the service are all parameters. Local midnight is the
unconstrained function parameter `startOfDay: int -> int`.

Two behaviours of the code are modelled as written:

- **Replay after a partial failure.** After a pass that fails part-way, the items
  already delivered stay queued and are sent again on the next pass. The code
  never removes items one by one, so when a pass accepts the first of two queued
  check-ins and rejects the second, both stay queued
  (`Reconciliation.RejectSecondKeepsBoth`).
- **A check-out time of zero counts as "no check-out".** Both the status query and
  the card test the optional `bigint` check-out time for JavaScript truthiness, so
  a check-out time of `0n` is treated like no check-out (`Backend.HasTime`).

`bigint` division truncates toward zero. The nanosecond-to-millisecond
conversion is written out for negative times too (`AttendanceStatus.NanosToMillis`).

## Model

| member | source | states |
|---|---|---|
| `OfflineQueue.Read` | src/frontend/src/utils/offlineQueue.ts:9-17 | a missing entry and an unreadable entry both read as the empty queue; a readable entry reads as its list |
| `OfflineQueue.Append` | src/frontend/src/utils/offlineQueue.ts:19-27 | an accepted write leaves a readable list that is the old queue plus the item at the end; on a corrupt entry that list is `[item]`; a refused write leaves the entry as it was |
| `OfflineQueue.AppendPlacesLast` | src/frontend/src/utils/offlineQueue.ts:20-23 | an append grows the queue by exactly one, keeps every earlier item at its position, and puts the new item last |
| `OfflineQueue.AppendKeepsDuplicates` | src/frontend/src/utils/offlineQueue.ts:22 | there is no deduplication: appending an item that is already queued adds one more copy of it |
| `OfflineQueue.AppendAll` | src/frontend/src/utils/offlineQueue.ts:19-27 | successive accepted appends read back as the old queue followed by the new items in insertion order |
| `OfflineQueue.Clear` | src/frontend/src/utils/offlineQueue.ts:29-35 | an accepted removal makes the queue read as empty; a refused removal is swallowed and changes nothing |
| `OfflineQueue.CallFor` | src/frontend/src/hooks/useOfflineSync.ts:49-55 | a check-in item is replayed as a check-in call with the stored latitude and longitude; a check-out item is replayed as a check-out call |
| `Submitters.Submit` | src/frontend/src/hooks/useCheckIn.ts:10-28 | no remote handle: an error, no call, nothing queued, nothing invalidated; accepted: one call, queue unchanged, both queries invalidated; rejected: one call, the same error rethrown, exactly one item appended when storage accepts it, nothing invalidated |
| `Submitters.CheckIn` | src/frontend/src/hooks/useCheckIn.ts:10-28 | no remote handle: an error, no call, nothing queued, nothing invalidated; accepted: both queries invalidated; a check-in calls the service with its coordinates; if the call is rejected, the error is rethrown and nothing is invalidated, one check-in item with those coordinates and the current time is appended when storage accepts the write, and the entry stays as it was when storage refuses it |
| `Submitters.CheckOut` | src/frontend/src/hooks/useCheckOut.ts:10-28 | no remote handle: an error, no call, nothing queued, nothing invalidated; accepted: both queries invalidated; a check-out calls the service; if the call is rejected, the error is rethrown and nothing is invalidated, one check-out item with no data and the current time is appended when storage accepts the write, and the entry stays as it was when storage refuses it |
| `Submitters.QueueingIgnoresCause` | src/frontend/src/hooks/useCheckIn.ts:15-22 | every rejection is queued the same way whatever its cause, and the error returned is the one thrown |
| `Submitters.QueueGrowsIffRejected` | src/frontend/src/hooks/useCheckOut.ts:13-22 | with an accepted write, the queue grows by one exactly when the call was rejected, and the action resolves exactly when the call succeeded |
| `OfflineSync.Init` | src/frontend/src/hooks/useOfflineSync.ts:9-12 | the monitor starts with the platform's online flag, not syncing, zero pending and no last sync time |
| `OfflineSync.OnEvent` | src/frontend/src/hooks/useOfflineSync.ts:27-28 | an online event sets `isOnline`, an offline event clears it, and nothing else changes |
| `OfflineSync.OnlineFollowsLastEvent` | src/frontend/src/hooks/useOfflineSync.ts:26-37 | after any run of connectivity events, `isOnline` reflects the most recent one and every other field is unchanged |
| `OfflineSync.Poll` | src/frontend/src/hooks/useOfflineSync.ts:15-18 | after a poll `pendingCount` equals the current queue length, and nothing else changes |
| `OfflineSync.DrainSpec` | src/frontend/src/hooks/useOfflineSync.ts:49-63 | about `OfflineSync.Drain`, the recursive model of the replay loop: the pass succeeds exactly when every reply is a success, and then it makes one call per item; otherwise it stops at the first rejection and makes no call after it; the calls made are the calls of the queue's first items, in queue order |
| `OfflineSync.SendInOrder` | src/frontend/src/hooks/useOfflineSync.ts:49-55 | the loop that awaits one call per item and leaves at the first throw computes exactly `Drain`: it fails exactly when some reply is a rejection, and its calls follow queue order |
| `OfflineSync.SyncPass` | src/frontend/src/hooks/useOfflineSync.ts:40-67 | offline, no handle, a pass already running, or an empty queue: no call and no change; otherwise `isSyncing` is false afterwards; full success clears the store, zeroes `pendingCount`, sets `lastSyncTime` and invalidates both queries; a failure leaves the store and the whole state as they were |
| `Reconciliation.FullReplaySendsAllInOrder` | src/frontend/src/hooks/useOfflineSync.ts:49-61 | N queued actions followed by a fully accepted pass: exactly N calls in the order queued, an empty store, zero pending, `lastSyncTime` set |
| `Reconciliation.RejectionKeepsWholeQueue` | src/frontend/src/hooks/useOfflineSync.ts:49-66 | when the k-th call is rejected, calls 0..k were made and no later call; the store still holds every item, those already delivered included; the state is unchanged |
| `Reconciliation.RetryResendsDeliveredItems` | src/frontend/src/hooks/useOfflineSync.ts:43-63 | after a pass that fails at item k, the next accepted pass sends again the k items the failed pass had delivered |
| `Reconciliation.SecondPassIsIdle` | src/frontend/src/hooks/useOfflineSync.ts:43-44 | after a fully successful pass, the next pass makes no call and changes nothing |
| `Reconciliation.RejectedCheckInIsReplayed` | src/frontend/src/hooks/useCheckIn.ts:15-22 | a rejected check-in is rethrown and queued, and the next accepted pass sends it with the same coordinates, after everything queued before it |
| `Reconciliation.RejectSecondKeepsBoth` | src/frontend/src/hooks/useOfflineSync.ts:49-63 | with two queued check-ins, the first accepted and the second rejected, both were sent, both stay queued, and `lastSyncTime` is unchanged |
| `AttendanceStatus.NanosToMillis` | src/frontend/src/hooks/useCurrentAttendanceStatus.ts:34 | nanoseconds become milliseconds by integer division by 1,000,000 that truncates toward zero, for negative times too |
| `AttendanceStatus.TodayRecords` | src/frontend/src/hooks/useCurrentAttendanceStatus.ts:33-37 | today's records are exactly the records whose check-in falls on today's local date |
| `AttendanceStatus.TodayRecordsOfOne` | src/frontend/src/hooks/useCurrentAttendanceStatus.ts:33-37 | a single record is kept exactly once when its check-in is today and dropped otherwise; with `TodayRecordsKeepOrder` this fixes the order and multiplicity of the selection for any list |
| `AttendanceStatus.TodayRecordsKeepOrder` | src/frontend/src/hooks/useCurrentAttendanceStatus.ts:33-37 | the selection keeps the service's order: today's records of `a + b` are today's records of `a` followed by those of `b` |
| `AttendanceStatus.CurrentStatus` | src/frontend/src/hooks/useCurrentAttendanceStatus.ts:12-48 | no handle, no identity, no records this month or none today: not checked in and no last record; otherwise the last record is the last of today's records in service order, and "checked in" holds exactly when its check-out time is falsy |
| `AttendanceStatus.CheckedInIffNoCheckOut` | src/frontend/src/hooks/useCurrentAttendanceStatus.ts:44-45 | unless the check-out time is exactly zero, "checked in" holds exactly when the last record has no check-out time |
| `AttendanceStatus.LastByPositionNotByTime` | src/frontend/src/hooks/useCurrentAttendanceStatus.ts:43-45 | the last record is taken by position: when a later check-in is listed first, the earlier one is reported |
| `RecentAttendanceList.SortNewestFirst` | src/frontend/src/components/RecentAttendanceList.tsx:37-39 | the sorted copy is a permutation of the records, ordered by check-in time from newest to oldest |
| `RecentAttendanceList.SortIsStable` | src/frontend/src/components/RecentAttendanceList.tsx:37-39 | records that share a check-in time keep their original relative order |
| `RecentAttendanceList.RowsFor` | src/frontend/src/components/RecentAttendanceList.tsx:54-60 | a row shows hours worked exactly when its record's check-out time is truthy |
| `RecentAttendanceList.Render` | src/frontend/src/components/RecentAttendanceList.tsx:10-34 | loading shows the loading card; no data or an empty list shows the empty state; otherwise one row per record of `Newest`, in that order, each showing hours worked only when its record has a check-out time |
| `RecentAttendanceList.Newest` | src/frontend/src/components/RecentAttendanceList.tsx:37-52 | the listed records number `min(10, n)`, run newest first, are drawn from the records, and are the newest ones: a record that checked in later than any record listed is itself listed; for each check-in time the listed records with that time are the first ones of the input with that time, in input order, and for every time later than the last listed record all of them are listed, duplicates included |
| `RecentAttendanceList.PrefixAtTime` | src/frontend/src/components/RecentAttendanceList.tsx:52 | cutting a newest-first list keeps, for each check-in time, a leading part of the records with that time, and all of them for times later than the last record kept |

## Left out

- Each replay pass is one atomic step. React effect scheduling, the 5-second poll timer, and an append racing a pass on the same storage entry are not modelled. Because `isSyncing` is a dependency of the sync effect, resetting it after a pass starts another pass at once while the queue is non-empty; against a rejection that persists, the accepted prefix is therefore resent again and again (each such pass is what `Reconciliation.RetryResendsDeliveredItems` describes).
- JSON text and the storage API are abstracted away. A stored value that parses but is not a list is not modelled. Neither is an item whose `type` is neither check-in nor check-out, which the replay loop would skip without a call. The queue's item type admits only the two kinds, and the only writers produce them.
- A queued item's `type` and `data` are merged into one `Action` value, because the writers always pair a check-in with its coordinates and a check-out with empty data.
- The service's own behaviour is not modelled; each call's outcome is an oracle input. The backend interface is the only part of the service that is visible.
- The month's records are an input. Working out the year and month from the clock is not modelled, and neither is a failed `getMonthlyReport` call, which surfaces as a query error.
- Local time zones and `Date` arithmetic are not modelled. Local midnight is the function parameter `startOfDay`. The two separate clock readings in the status query are taken as one reading `nowMs`.
- Converting a `bigint` to a JavaScript number can lose precision, and `Date` has a limited range. Neither is modelled: millisecond values are exact integers.
- The hours-worked figure and all `toFixed` formatting are not modelled, because they use floating point. Only whether the figure is shown is modelled.
- The card sorts a copy and leaves the input array in place. With immutable sequences this holds by construction, so no separate lemma states it.
- Latitude and longitude are opaque values carried unchanged; no arithmetic is done on them.
- `OfflineSync.SyncPass` requires the replies oracle to answer every queued item. A pass never makes more calls than the queue has items.
- Console logging, the loading skeleton and all other layout are not modelled.
