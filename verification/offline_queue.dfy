/** The durable buffer of attendance actions whose remote call failed: one
    storage entry holding a list, read whole, appended to by rewriting the
    whole list, and removed at once. No operation here ever fails to its caller. */
module OfflineQueue {
  import opened Backend

  /** A queued action: a check-in carries the coordinates it was attempted with,
      a check-out carries no data. */
  datatype Action = CheckInAt(latitude: real, longitude: real) | CheckOutAction

  datatype QueueItem = QueueItem(action: Action, timestamp: int)

  /** The remote call a queued action stands for. */
  function CallFor(a: Action): (c: Call)
    ensures c.CheckInCall? <==> a.CheckInAt?
    ensures a.CheckInAt? ==> c.latitude == a.latitude && c.longitude == a.longitude
  {
    match a
    case CheckInAt(lat, lon) => CheckInCall(lat, lon)
    case CheckOutAction => CheckOutCall
  }

  /** The calls a replay of `q` would make, one per item, in queue order. */
  function CallsFor(q: seq<QueueItem>): (cs: seq<Call>)
    ensures |cs| == |q|
    ensures forall i :: 0 <= i < |q| ==> cs[i] == CallFor(q[i].action)
  {
    seq(|q|, i requires 0 <= i < |q| => CallFor(q[i].action))
  }

  /** The storage entry as the queue sees it: missing, present but unreadable
      (a parse failure, or storage refusing the read), or a readable list. */
  datatype Storage = Absent | Corrupt | Stored(items: seq<QueueItem>)

  /** Reading the queue. A missing or unreadable entry reads as the empty
      queue instead of an error. */
  function Read(s: Storage): (q: seq<QueueItem>)
    ensures s.Stored? ==> q == s.items
    ensures s.Absent? ==> q == []
    ensures s.Corrupt? ==> q == []
  {
    if s.Stored? then s.items else []
  }

  /** Appending: read, push, rewrite. `writeOk` says whether the storage
      accepted the write; a refused write is swallowed and leaves the entry as it was. */
  function Append(s: Storage, item: QueueItem, writeOk: bool): (s': Storage)
    ensures writeOk ==> s'.Stored? && Read(s') == Read(s) + [item]
    ensures writeOk && s.Corrupt? ==> s' == Stored([item])
    ensures !writeOk ==> s' == s
  {
    if writeOk then Stored(Read(s) + [item]) else s
  }

  /** Clearing removes the entry; a refused removal is swallowed. */
  function Clear(s: Storage, removeOk: bool): (s': Storage)
    ensures removeOk ==> s'.Absent? && Read(s') == []
    ensures !removeOk ==> s' == s
  {
    if removeOk then Absent else s
  }

  /** An accepted append places the item last, keeps every earlier item where it
      was, and grows the queue by exactly one. */
  lemma AppendPlacesLast(s: Storage, item: QueueItem)
    ensures |Read(Append(s, item, true))| == |Read(s)| + 1
    ensures Read(Append(s, item, true))[..|Read(s)|] == Read(s)
    ensures Read(Append(s, item, true))[|Read(s)|] == item
  {
    var q := Read(s);
    assert (q + [item])[..|q|] == q;
  }

  /** There is no deduplication: appending an item that is already queued still
      adds one more copy of it. */
  lemma AppendKeepsDuplicates(s: Storage, item: QueueItem)
    requires item in Read(s)
    ensures multiset(Read(Append(s, item, true)))[item] == multiset(Read(s))[item] + 1
    ensures |Read(Append(s, item, true))| > |Read(s)|
  {
  }

  /** Appending several items one after another, every write accepted. The
      queue then reads as the old queue followed by the new items, in order. */
  function AppendAll(s: Storage, items: seq<QueueItem>): (s': Storage)
    ensures Read(s') == Read(s) + items
    decreases |items|
  {
    if |items| == 0 then s
    else
      var s1 := Append(s, items[0], true);
      assert Read(s) + [items[0]] + items[1..] == Read(s) + items;
      AppendAll(s1, items[1..])
  }
}
