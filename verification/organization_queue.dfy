/** The organization queue: file changes waiting to be organized, with an
    approval workflow (pending, approved or rejected) and processing states
    (processing, completed, failed). The queue keeps insertion order, as the
    source's `Map` does; the clock is a parameter and events are not modelled. */
module OrganizationQueue {
  import opened Common
  import opened Sorting

  datatype QueueItemStatus = Pending | Processing | Approved | Rejected | Completed | Failed

  function StatusName(s: QueueItemStatus): string {
    match s
    case Pending => "pending"
    case Processing => "processing"
    case Approved => "approved"
    case Rejected => "rejected"
    case Completed => "completed"
    case Failed => "failed"
  }

  /** A queued change: the changed file's path and the action its processing
      result proposes stand for the event and the processing result. */
  datatype QueueItem = QueueItem(
    id: string,
    path: string,
    action: string,
    status: QueueItemStatus,
    addedAt: int,
    processedAt: Option<int>,
    error: Option<string>)

  datatype QueueConfig = QueueConfig(
    autoApprove: Option<bool>,
    autoApproveActions: Option<seq<string>>,
    maxSize: Option<int>,
    batchSize: Option<int>)

  datatype ResolvedConfig = ResolvedConfig(autoApprove: bool, autoApproveActions: seq<string>, maxSize: int, batchSize: int)

  /** The constructor's defaults; `??` keeps any given value, 0 and `false` included. */
  function ResolveConfig(c: QueueConfig): (r: ResolvedConfig)
    ensures r.autoApprove == c.autoApprove.GetOr(false)
    ensures c.autoApproveActions.None? ==> r.autoApproveActions == ["update_metadata"]
    ensures c.maxSize.None? ==> r.maxSize == 1000
    ensures c.batchSize.None? ==> r.batchSize == 10
    ensures c.maxSize.Some? ==> r.maxSize == c.maxSize.value
  {
    ResolvedConfig(c.autoApprove.GetOr(false), c.autoApproveActions.GetOr(["update_metadata"]),
                   c.maxSize.GetOr(1000), c.batchSize.GetOr(10))
  }

  datatype Queue = Queue(items: seq<QueueItem>, config: ResolvedConfig, nextId: nat)

  const IdPrefix: string := "queue-"

  /** The id of the `n`-th added item. */
  function IdFor(n: nat): string {
    IdPrefix + NatToString(n)
  }

  /** An id of the form `queue-<digits>`. */
  predicate IsQueueId(id: string) {
    |id| > |IdPrefix| && id[..|IdPrefix|] == IdPrefix
    && forall k :: |IdPrefix| <= k < |id| ==> IsDigit(id[k])
  }

  /** The number an id carries (0 for an id not of the queue's form). */
  function IdNumber(id: string): nat {
    if IsQueueId(id) then DigitsValue(id[|IdPrefix|..]) else 0
  }

  /** The number can be read back from the id: ids are never reused. */
  lemma IdNumberOfIdFor(n: nat)
    ensures IsQueueId(IdFor(n)) && IdNumber(IdFor(n)) == n
  {
    var id := IdFor(n);
    assert id[|IdPrefix|..] == NatToString(n);
    assert id[..|IdPrefix|] == IdPrefix;
    NatToStringRoundTrip(n);
  }

  /** `a` was added before `b`. */
  predicate AddedBefore(a: QueueItem, b: QueueItem) {
    IdNumber(a.id) < IdNumber(b.id)
  }

  /** The queue's invariant: every item carries the id of a number below
      `nextId`, numbers increase along the queue (so ids are distinct), and the
      queue never holds more than `maxSize` items. */
  ghost predicate Valid(q: Queue) {
    && q.nextId >= 1
    && |q.items| <= (if q.config.maxSize < 0 then 0 else q.config.maxSize)
    && (forall x :: x in q.items ==> IsQueueId(x.id) && 1 <= IdNumber(x.id) < q.nextId)
    && SortedBy(q.items, AddedBefore)
  }

  predicate DistinctIds(items: seq<QueueItem>) {
    forall i, j :: 0 <= i < j < |items| ==> items[i].id != items[j].id
  }

  lemma ValidIdsDistinct(q: Queue)
    requires Valid(q)
    ensures DistinctIds(q.items)
  {
    forall i, j | 0 <= i < j < |q.items| ensures q.items[i].id != q.items[j].id {
      assert AddedBefore(q.items[i], q.items[j]);
    }
  }

  /** A queue built from a configuration. */
  function NewQueue(config: QueueConfig): (r: Queue)
    ensures Valid(r) && |r.items| == 0
  {
    Queue([], ResolveConfig(config), 1)
  }

  /** `shouldAutoApprove`. */
  predicate ShouldAutoApprove(config: ResolvedConfig, action: string) {
    config.autoApprove || action in config.autoApproveActions
  }

  /** `add`: refuses when the queue is full; otherwise appends an item with a
      fresh id, approved when the action is auto-approved and pending otherwise. */
  function Add(q: Queue, path: string, action: string, now: int): (r: Result<(Queue, QueueItem), string>)
    requires Valid(q)
    ensures r.Err? <==> |q.items| >= q.config.maxSize
    ensures r.Ok? ==> var (q', item) := r.value;
              && Valid(q')
              && q'.items == q.items + [item]
              && q'.config == q.config
              && item.status == (if ShouldAutoApprove(q.config, action) then Approved else Pending)
              && item.path == path && item.action == action && item.addedAt == now
              && (forall x :: x in q.items ==> x.id != item.id)
  {
    if |q.items| >= q.config.maxSize then
      Err("Queue is full (" + IntToString(q.config.maxSize) + " items)")
    else
      var status := if ShouldAutoApprove(q.config, action) then Approved else Pending;
      var item := QueueItem(IdFor(q.nextId), path, action, status, now, None, None);
      AppendKeepsValid(q, item);
      Ok((Queue(q.items + [item], q.config, q.nextId + 1), item))
  }

  /** Appending an item with the next id keeps the invariant, and the new id is
      not in use. */
  lemma AppendKeepsValid(q: Queue, item: QueueItem)
    requires Valid(q) && |q.items| < q.config.maxSize && item.id == IdFor(q.nextId)
    ensures Valid(Queue(q.items + [item], q.config, q.nextId + 1))
    ensures forall x :: x in q.items ==> x.id != item.id
  {
    IdNumberOfIdFor(q.nextId);
    var items := q.items + [item];
    forall i, j | 0 <= i < j < |items| ensures AddedBefore(items[i], items[j]) {
      if j < |q.items| {
        assert AddedBefore(q.items[i], q.items[j]);
      } else {
        assert q.items[i] in q.items;
      }
    }
    assert forall x :: x in q.items ==> IdNumber(x.id) < IdNumber(item.id);
  }

  /** The position of the item with id `id`, if any. */
  function IndexOf(items: seq<QueueItem>, id: string): (r: Option<nat>)
    ensures r.None? <==> forall x :: x in items ==> x.id != id
    ensures r.Some? ==> r.value < |items| && items[r.value].id == id
    decreases |items|
  {
    if |items| == 0 then None
    else if items[0].id == id then Some(0)
    else
      match IndexOf(items[1..], id)
      case None =>
        assert forall x :: x in items ==> x == items[0] || x in items[1..];
        None
      case Some(k) => Some(k + 1)
  }

  /** `get`. */
  function Get(q: Queue, id: string): (r: Option<QueueItem>)
    ensures r.None? <==> forall x :: x in q.items ==> x.id != id
    ensures r.Some? ==> r.value in q.items && r.value.id == id
  {
    match IndexOf(q.items, id)
    case None => None
    case Some(k) => Some(q.items[k])
  }

  /** The queue with the item at position `k` replaced by `item`, which keeps its id. */
  function ReplaceAt(q: Queue, k: nat, item: QueueItem): (r: Queue)
    requires Valid(q) && k < |q.items| && item.id == q.items[k].id
    ensures Valid(r)
    ensures r.config == q.config && r.nextId == q.nextId
    ensures |r.items| == |q.items| && r.items[k] == item
    ensures forall i :: 0 <= i < |q.items| && i != k ==> r.items[i] == q.items[i]
  {
    ReplaceKeepsValid(q, k, item);
    q.(items := q.items[k := item])
  }

  lemma ReplaceKeepsValid(q: Queue, k: nat, item: QueueItem)
    requires Valid(q) && k < |q.items| && item.id == q.items[k].id
    ensures Valid(q.(items := q.items[k := item]))
  {
    var items := q.items[k := item];
    forall i, j | 0 <= i < j < |items| ensures AddedBefore(items[i], items[j]) {
      assert AddedBefore(q.items[i], q.items[j]);
    }
    assert q.items[k] in q.items;
    forall x | x in items ensures IsQueueId(x.id) && 1 <= IdNumber(x.id) < q.nextId {
      var m :| 0 <= m < |items| && items[m] == x;
      assert m != k ==> q.items[m] in q.items;
    }
  }

  /** Outcome of `approve` and `reject`: the updated queue and item, `None`
      for an unknown id, or the error thrown for an item that is not pending. */
  type Decision = Result<Option<(Queue, QueueItem)>, string>

  /** A pending item once approved, or once rejected with `reason`, which
      replaces its error only when it is a non-empty text. */
  function Decided(x: QueueItem, approve: bool, reason: Option<string>): QueueItem {
    if approve then x.(status := Approved)
    else x.(status := Rejected, error := if Truthy(reason) then reason else x.error)
  }

  /** `approve`: only a pending item can be approved. */
  function Approve(q: Queue, id: string): (r: Decision)
    requires Valid(q)
    ensures r == Ok(None) <==> Get(q, id).None?
    ensures r.Err? <==> Get(q, id).Some? && Get(q, id).value.status != Pending
    ensures r.Ok? && r.value.Some? ==> var (q', item) := r.value.value;
              && Valid(q')
              && item == Get(q, id).value.(status := Approved)
              && |q'.items| == |q.items|
              && (forall i :: 0 <= i < |q.items| ==>
                    q'.items[i] == if q.items[i].id == id then item else q.items[i])
  {
    match IndexOf(q.items, id)
    case None => Ok(None)
    case Some(k) =>
      var item := q.items[k];
      if item.status != Pending then
        Err("Cannot approve item with status: " + StatusName(item.status))
      else
        ValidIdsDistinct(q);
        var updated := item.(status := Approved);
        Ok(Some((ReplaceAt(q, k, updated), updated)))
  }

  /** `reject`: only a pending item can be rejected; a non-empty reason is
      recorded as its error. */
  function Reject(q: Queue, id: string, reason: Option<string>): (r: Decision)
    requires Valid(q)
    ensures r == Ok(None) <==> Get(q, id).None?
    ensures r.Err? <==> Get(q, id).Some? && Get(q, id).value.status != Pending
    ensures r.Ok? && r.value.Some? ==> var (q', item) := r.value.value;
              && Valid(q')
              && item.status == Rejected
              && item.id == id
              && (Truthy(reason) ==> item.error == reason)
              && (!Truthy(reason) ==> item.error == Get(q, id).value.error)
              && item == Decided(Get(q, id).value, false, reason)
              && |q'.items| == |q.items|
              && (forall i :: 0 <= i < |q.items| ==>
                    q'.items[i] == if q.items[i].id == id then item else q.items[i])
  {
    match IndexOf(q.items, id)
    case None => Ok(None)
    case Some(k) =>
      var item := q.items[k];
      if item.status != Pending then
        Err("Cannot reject item with status: " + StatusName(item.status))
      else
        ValidIdsDistinct(q);
        var updated := item.(status := Rejected, error := if Truthy(reason) then reason else item.error);
        Ok(Some((ReplaceAt(q, k, updated), updated)))
  }

  /** Every item is either unchanged or was pending, is named in `ids` and
      has been decided. */
  ghost predicate DecidedOnly(before: seq<QueueItem>, after: seq<QueueItem>, ids: seq<string>, approve: bool, reason: Option<string>) {
    && |after| == |before|
    && forall i :: 0 <= i < |before| ==>
         || after[i] == before[i]
         || (before[i].id in ids && before[i].status == Pending && after[i] == Decided(before[i], approve, reason))
  }

  /** Every item named in `ids` was pending and has been decided. */
  ghost predicate AllNamedDecided(before: seq<QueueItem>, after: seq<QueueItem>, ids: seq<string>, approve: bool, reason: Option<string>) {
    && |after| == |before|
    && forall i :: 0 <= i < |before| && before[i].id in ids ==>
         before[i].status == Pending && after[i] == Decided(before[i], approve, reason)
  }

  /** `approve` or `reject` with the given reason, stated through `Decided`. */
  function DecideOne(q: Queue, id: string, approve: bool, reason: Option<string>): (r: Decision)
    requires Valid(q)
    ensures r == Ok(None) <==> Get(q, id).None?
    ensures r.Err? <==> Get(q, id).Some? && Get(q, id).value.status != Pending
    ensures r.Ok? && r.value.Some? ==> var (q', item) := r.value.value;
              && Valid(q')
              && item == Decided(Get(q, id).value, approve, reason)
              && |q'.items| == |q.items|
              && (forall i :: 0 <= i < |q.items| ==>
                    q'.items[i] == if q.items[i].id == id then item else q.items[i])
  {
    if approve then Approve(q, id) else Reject(q, id, reason)
  }

  /** `approveMultiple` / `rejectMultiple`: decides each id in turn and keeps
      the items that exist; the first non-pending item stops the batch with its
      error, and the decisions made before it stay made. Only named pending
      items change, and when no error stops the batch every named item has
      been decided. */
  function DecideAll(q: Queue, ids: seq<string>, approve: bool, reason: Option<string>)
    : (r: (Queue, seq<QueueItem>, Option<string>))
    requires Valid(q)
    ensures Valid(r.0)
    ensures |r.1| <= |ids|
    ensures forall x :: x in r.1 ==> x.status == (if approve then Approved else Rejected) && x.id in ids
    ensures |r.0.items| == |q.items|
    decreases |ids|
  {
    if |ids| == 0 then (q, [], None)
    else
      var d := DecideOne(q, ids[0], approve, reason);
      assert forall s :: s in ids[1..] ==> s in ids;
      if d.Err? then (q, [], Some(d.error))
      else if d.value.None? then DecideAll(q, ids[1..], approve, reason)
      else
        var r := DecideAll(d.value.value.0, ids[1..], approve, reason);
        (r.0, [d.value.value.1] + r.1, r.2)
  }

  /** A batch changes only the pending items it names, each to its decided
      form, and when no error stops it every item it names has been decided. */
  lemma {:induction false} DecideAllEffect(q: Queue, ids: seq<string>, approve: bool, reason: Option<string>)
    requires Valid(q)
    ensures var r := DecideAll(q, ids, approve, reason);
            && DecidedOnly(q.items, r.0.items, ids, approve, reason)
            && (r.2.None? ==> AllNamedDecided(q.items, r.0.items, ids, approve, reason))
    decreases |ids|
  {
    if |ids| > 0 {
      var d := DecideOne(q, ids[0], approve, reason);
      if d == Ok(None) {
        var r := DecideAll(q, ids[1..], approve, reason);
        DecideAllEffect(q, ids[1..], approve, reason);
        SkipUnknownId(q.items, r.0.items, ids, approve, reason, r.2.None?);
      } else if d.Ok? {
        var q1 := d.value.value.0;
        var r := DecideAll(q1, ids[1..], approve, reason);
        DecideAllEffect(q1, ids[1..], approve, reason);
        ValidIdsDistinct(q);
        DecideFirstId(q.items, q1.items, r.0.items, ids, approve, reason, Get(q, ids[0]).value, r.2.None?);
      }
    }
  }

  /** An id no item carries changes nothing, so the rest of the batch decides alone. */
  lemma SkipUnknownId(items: seq<QueueItem>, after: seq<QueueItem>, ids: seq<string>, approve: bool, reason: Option<string>, ok: bool)
    requires |ids| > 0 && forall x :: x in items ==> x.id != ids[0]
    requires DecidedOnly(items, after, ids[1..], approve, reason)
    requires ok ==> AllNamedDecided(items, after, ids[1..], approve, reason)
    ensures DecidedOnly(items, after, ids, approve, reason)
    ensures ok ==> AllNamedDecided(items, after, ids, approve, reason)
  {
    assert forall s :: s in ids[1..] ==> s in ids;
    forall i | 0 <= i < |items| && items[i].id in ids ensures items[i].id in ids[1..] {
      assert items[i] in items;
    }
  }

  /** Deciding the first id's pending item and then the rest of the batch
      decides every item the whole batch names. */
  lemma DecideFirstId(items: seq<QueueItem>, mid: seq<QueueItem>, after: seq<QueueItem>, ids: seq<string>,
                      approve: bool, reason: Option<string>, x: QueueItem, ok: bool)
    requires DistinctIds(items)
    requires |ids| > 0 && x in items && x.id == ids[0] && x.status == Pending
    requires |mid| == |items|
    requires forall i :: 0 <= i < |items| ==> mid[i] == if items[i].id == ids[0] then Decided(x, approve, reason) else items[i]
    requires DecidedOnly(mid, after, ids[1..], approve, reason)
    requires ok ==> AllNamedDecided(mid, after, ids[1..], approve, reason)
    ensures DecidedOnly(items, after, ids, approve, reason)
    ensures ok ==> AllNamedDecided(items, after, ids, approve, reason)
  {
    assert forall s :: s in ids[1..] ==> s in ids;
    forall i | 0 <= i < |items| && items[i].id == ids[0] ensures items[i] == x {
      var j :| 0 <= j < |items| && items[j] == x;
      if i != j {
        assert items[i].id != items[j].id;
      }
    }
    forall i | 0 <= i < |items| && items[i].id in ids && items[i].id != ids[0] ensures items[i].id in ids[1..] {
    }
  }

  /** `markProcessing`, `markCompleted` and `markFailed`: set the status from
      any status; completion and failure stamp the time, failure records the error. */
  function Mark(q: Queue, id: string, status: QueueItemStatus, now: int, error: Option<string>): (r: Option<(Queue, QueueItem)>)
    requires Valid(q)
    requires status == Processing || status == Completed || status == Failed
    ensures r.None? <==> Get(q, id).None?
    ensures r.Some? ==> var (q', item) := r.value;
              && Valid(q')
              && item.id == id && item.status == status
              && (status != Processing ==> item.processedAt == Some(now))
              && (status == Failed ==> item.error == error)
              && |q'.items| == |q.items|
              && (forall i :: 0 <= i < |q.items| ==>
                    q'.items[i] == if q.items[i].id == id then item else q.items[i])
  {
    match IndexOf(q.items, id)
    case None => None
    case Some(k) =>
      ValidIdsDistinct(q);
      var item := q.items[k];
      var updated :=
        if status == Processing then item.(status := Processing)
        else if status == Completed then item.(status := Completed, processedAt := Some(now))
        else item.(status := Failed, processedAt := Some(now), error := error);
      Some((ReplaceAt(q, k, updated), updated))
  }

  function HasStatus(s: QueueItemStatus): QueueItem -> bool {
    (x: QueueItem) => x.status == s
  }

  /** `getByStatus`, in queue order. */
  function GetByStatus(q: Queue, s: QueueItemStatus): (r: seq<QueueItem>)
    ensures forall x :: x in r <==> x in q.items && x.status == s
    ensures |r| <= |q.items|
  {
    Filter(q.items, HasStatus(s))
  }

  /** The end index of JavaScript's `slice(0, n)` on a sequence of length `len`:
      a negative `n` counts from the end. */
  function SliceEnd(len: nat, n: int): (e: nat)
    ensures e <= len
    ensures n >= 0 ==> e == if n < len then n else len
    ensures n < 0 ==> e == if len + n > 0 then len + n else 0
  {
    if n < 0 then (if len + n > 0 then len + n else 0) else if n < len then n else len
  }

  /** `getNextBatch`: the first approved items; an absent or zero size falls
      back to the configured batch size. */
  function GetNextBatch(q: Queue, size: Option<int>): (r: seq<QueueItem>)
    ensures var n := if size.Some? && size.value != 0 then size.value else q.config.batchSize;
            && (n >= 0 ==> |r| <= n)
            && |r| <= |GetByStatus(q, Approved)|
            && r == GetByStatus(q, Approved)[..|r|]
            && (|r| < |GetByStatus(q, Approved)| ==> n >= 0 ==> |r| == n)
    ensures forall x :: x in r ==> x in q.items && x.status == Approved
  {
    var n := if size.Some? && size.value != 0 then size.value else q.config.batchSize;
    var approved := GetByStatus(q, Approved);
    var e := SliceEnd(|approved|, n);
    assert forall x :: x in approved[..e] ==> x in approved;
    approved[..e]
  }

  /** `remove`: reports whether an item with that id was present. */
  function Remove(q: Queue, id: string): (r: (Queue, bool))
    requires Valid(q)
    ensures Valid(r.0)
    ensures r.1 <==> Get(q, id).Some?
    ensures forall x :: x in r.0.items <==> x in q.items && x.id != id
    ensures !r.1 ==> r.0 == q
  {
    var kept := Filter(q.items, (x: QueueItem) => x.id != id);
    var q' := q.(items := kept);
    KeepValid(q, (x: QueueItem) => x.id != id);
    FilterAllOrNone(q.items, (x: QueueItem) => x.id != id);
    (q', Get(q, id).Some?)
  }

  /** Dropping items keeps the invariant. */
  lemma KeepValid(q: Queue, keep: QueueItem -> bool)
    requires Valid(q)
    ensures Valid(q.(items := Filter(q.items, keep)))
  {
    FilterSorted(q.items, keep, AddedBefore);
  }

  function IsProcessed(): QueueItem -> bool {
    (x: QueueItem) => x.status == Completed || x.status == Failed
  }

  /** `clearProcessed`: removes exactly the completed and failed items and
      returns how many it removed. */
  function ClearProcessed(q: Queue): (r: (Queue, nat))
    requires Valid(q)
    ensures Valid(r.0)
    ensures forall x :: x in r.0.items <==> x in q.items && x.status != Completed && x.status != Failed
    ensures r.1 == |Filter(q.items, IsProcessed())|
    ensures |r.0.items| + r.1 == |q.items|
  {
    var keep := (x: QueueItem) => !(x.status == Completed || x.status == Failed);
    KeepValid(q, keep);
    FilterComplement(q.items, IsProcessed(), keep);
    (q.(items := Filter(q.items, keep)), |Filter(q.items, IsProcessed())|)
  }

  /** A sequence splits into the elements satisfying `p` and those satisfying its negation. */
  lemma {:induction false} FilterComplement(items: seq<QueueItem>, p: QueueItem -> bool, notP: QueueItem -> bool)
    requires forall x :: notP(x) == !p(x)
    ensures |Filter(items, p)| + |Filter(items, notP)| == |items|
    decreases |items|
  {
    if |items| > 0 {
      FilterComplement(items[1..], p, notP);
    }
  }

  /** `clear`. */
  function Clear(q: Queue): (r: Queue)
    ensures |r.items| == 0 && r.config == q.config && r.nextId == q.nextId
    ensures Valid(q) ==> Valid(r)
  {
    q.(items := [])
  }

  datatype QueueStats = QueueStats(total: nat, pending: nat, processing: nat, approved: nat, rejected: nat, completed: nat, failed: nat)

  /** `getStats`. */
  function GetStats(q: Queue): (r: QueueStats)
    ensures r.total == |q.items|
    ensures r.pending + r.processing + r.approved + r.rejected + r.completed + r.failed == r.total
    ensures r.pending == |GetByStatus(q, Pending)| && r.processing == |GetByStatus(q, Processing)|
    ensures r.approved == |GetByStatus(q, Approved)| && r.rejected == |GetByStatus(q, Rejected)|
    ensures r.completed == |GetByStatus(q, Completed)| && r.failed == |GetByStatus(q, Failed)|
  {
    StatusCountsSum(q.items);
    QueueStats(|q.items|,
      Count(q.items, HasStatus(Pending)), Count(q.items, HasStatus(Processing)),
      Count(q.items, HasStatus(Approved)), Count(q.items, HasStatus(Rejected)),
      Count(q.items, HasStatus(Completed)), Count(q.items, HasStatus(Failed)))
  }

  /** Every item has exactly one status, so the per-status counts add up. */
  lemma {:induction false} StatusCountsSum(items: seq<QueueItem>)
    ensures Count(items, HasStatus(Pending)) + Count(items, HasStatus(Processing))
            + Count(items, HasStatus(Approved)) + Count(items, HasStatus(Rejected))
            + Count(items, HasStatus(Completed)) + Count(items, HasStatus(Failed)) == |items|
    decreases |items|
  {
    if |items| > 0 {
      StatusCountsSum(items[1..]);
    }
  }
}
