/** StartIndexWorkflow and StartIndexWorkflowBatch: which queue each height is
    sent to, and which heights a batch loses at the live boundary. */
module Dispatch {
  import opened Integers
  import opened Scheduler

  const LIVE_BLOCK_THRESHOLD := 200

  datatype Queue = Live | Historical
  datatype Sent = Sent(height: uint64, queue: Queue)

  predicate IsLiveBlock(latest: uint64, height: uint64) {
    if height > latest then true else latest - height <= LIVE_BLOCK_THRESHOLD
  }

  /** The last 200 blocks below the head, and everything above it, are live. */
  lemma LiveExactly(latest: uint64, height: uint64)
    ensures IsLiveBlock(latest, height) <==> height + 200 >= latest
    ensures QueueFor(latest, height) == Live <==> height + 200 >= latest
    ensures QueueFor(latest, height) == Historical <==> height + 200 < latest
  {
  }

  /** The queue StartIndexWorkflow picks for a single height. */
  function QueueFor(latest: uint64, height: uint64): Queue {
    if IsLiveBlock(latest, height) then Live else Historical
  }

  /** Nothing at all is sent for these batches: the signed length overflows, or the batch
      ends exactly on the boundary it is split at. */
  predicate Lost(start: uint64, end: uint64, latest: uint64) {
    || end - start + 1 >= TWO63
    || (start < end && latest > LIVE_BLOCK_THRESHOLD && end == latest - LIVE_BLOCK_THRESHOLD)
  }

  /** The queue a height gets as a member of a batch: a batch that starts below the boundary
      takes the boundary height itself to the historical queue. */
  function QueueInBatch(start: uint64, latest: uint64, height: uint64): Queue {
    if IsLiveBlock(latest, height) && (IsLiveBlock(latest, start) || latest - height != LIVE_BLOCK_THRESHOLD)
    then Live else Historical
  }

  /** What a batch sends, in order. */
  function Dispatched(start: uint64, end: uint64, latest: uint64): seq<Sent> {
    if start > end || Lost(start, end, latest) then []
    else seq(end - start + 1, i requires 0 <= i <= end - start => Sent(start + i, QueueInBatch(start, latest, start + i)))
  }

  /** heights start..end, all to one queue. */
  function ToQueue(start: uint64, end: uint64, queue: Queue): seq<Sent> {
    if start > end then [] else seq(end - start + 1, i requires 0 <= i <= end - start => Sent(start + i, queue))
  }

  lemma DispatchedAt(start: uint64, end: uint64, latest: uint64, i: nat)
    requires i < |Dispatched(start, end, latest)|
    ensures start + i <= end && Dispatched(start, end, latest)[i] == Sent(start + i, QueueInBatch(start, latest, start + i))
  {
  }

  lemma ToQueueAt(start: uint64, end: uint64, queue: Queue, i: nat)
    requires i < |ToQueue(start, end, queue)|
    ensures start + i <= end && ToQueue(start, end, queue)[i] == Sent(start + i, queue)
  {
  }

  /** A split batch goes out as its two halves, an unsplit one to one queue. */
  lemma DispatchedSplit(start: uint64, end: uint64, latest: uint64)
    requires start <= end && !Lost(start, end, latest)
    ensures IsLiveBlock(latest, start) ==> Dispatched(start, end, latest) == ToQueue(start, end, Live)
    ensures !IsLiveBlock(latest, end) ==> Dispatched(start, end, latest) == ToQueue(start, end, Historical)
    ensures !IsLiveBlock(latest, start) && IsLiveBlock(latest, end) ==>
              var boundary := latest - LIVE_BLOCK_THRESHOLD;
              && start < boundary < end
              && Dispatched(start, end, latest) == ToQueue(start, boundary, Historical) + ToQueue(boundary + 1, end, Live)
  {
    var sent := Dispatched(start, end, latest);
    forall i | 0 <= i < |sent| ensures sent[i] == Sent(start + i, QueueInBatch(start, latest, start + i)) {
      DispatchedAt(start, end, latest, i);
    }
    forall lo: uint64, hi: uint64, q, i | 0 <= i < |ToQueue(lo, hi, q)|
      ensures ToQueue(lo, hi, q)[i].height == lo + i && ToQueue(lo, hi, q)[i].queue == q
    {
      ToQueueAt(lo, hi, q, i);
    }
  }

  /** The loop counter is 64 bits wide, so the last height has to be below the maximum. */
  method ScheduleBatchToQueue(start: uint64, end: uint64, queue: Queue) returns (sent: seq<Sent>)
    requires end < TWO64 - 1
    ensures sent == if end - start + 1 < TWO63 then ToQueue(start, end, queue) else []
  {
    sent := [];
    var totalHeights := Signed64(end - start + 1);
    if totalHeights <= 0 {
      return;
    }
    var height: uint64 := start;
    while height <= end
      invariant start <= end ==> start <= height <= end + 1 && sent == ToQueue(start, end, queue)[..height - start]
      invariant start > end ==> sent == [] && height == start
      decreases end + 1 - height
    {
      sent := sent + [Sent(height, queue)];
      height := height + 1;
    }
  }

  method StartIndexWorkflowBatch(start: uint64, end: uint64, latest: uint64) returns (sent: seq<Sent>)
    requires end < TWO64 - 1
    ensures sent == Dispatched(start, end, latest)
  {
    var totalHeights := Signed64(end - start + 1);
    if totalHeights <= 0 {
      return [];
    }
    if start <= end && !Lost(start, end, latest) {
      DispatchedSplit(start, end, latest);
    }
    var batchIsLive := IsLiveBlock(latest, start) && IsLiveBlock(latest, end);
    var batchIsHistorical := !IsLiveBlock(latest, start) && !IsLiveBlock(latest, end);
    if !batchIsLive && !batchIsHistorical {
      var boundary: uint64 := 0;
      if latest > LIVE_BLOCK_THRESHOLD {
        boundary := latest - LIVE_BLOCK_THRESHOLD;
      }
      sent := [];
      if start <= boundary && boundary < end {
        var histEnd := if boundary > end then end else boundary;
        sent := ScheduleBatchToQueue(start, histEnd, Historical);
      }
      if end > boundary {
        var liveStart := if boundary + 1 < start then start else boundary + 1;
        var live := ScheduleBatchToQueue(liveStart, end, Live);
        sent := sent + live;
      }
    } else {
      sent := ScheduleBatchToQueue(start, end, if batchIsLive then Live else Historical);
    }
  }

  /** Higher is never less live. */
  lemma LiveMonotone(latest: uint64, a: uint64, b: uint64)
    requires a <= b && IsLiveBlock(latest, a)
    ensures IsLiveBlock(latest, b)
  {
  }

  const MAX_CONCURRENT_PER_CHUNK := 50

  function ChunkSize(configured: uint64): (size: uint64)
    ensures size >= 50 && size >= configured && (size == 50 || size == configured)
  {
    var batchSize := if configured == 0 then 1 else configured;
    if batchSize > MAX_CONCURRENT_PER_CHUNK then batchSize else MAX_CONCURRENT_PER_CHUNK
  }

  /** What a direct schedule of a range sends, oldest first, each height to its own queue. */
  function DirectlySent(start: uint64, end: uint64, latest: uint64): seq<Sent> {
    if start > end then [] else seq(end - start + 1, i requires 0 <= i <= end - start => Sent(start + i, QueueFor(latest, start + i)))
  }

  /** Chunks only group the starts: every height goes out once, in order, whatever the chunk size. */
  method ScheduleDirectly(start: uint64, end: uint64, configured: uint64, latest: uint64) returns (sent: seq<Sent>)
    requires end + ChunkSize(configured) < TWO64
    ensures sent == DirectlySent(start, end, latest)
  {
    sent := [];
    var current: uint64 := start;
    while current <= end
      invariant start <= end ==> start <= current <= end + 1 && sent == DirectlySent(start, end, latest)[..current - start]
      invariant start > end ==> sent == []
      decreases end + 1 - current
    {
      var chunkEnd: uint64 := current + ChunkSize(configured) - 1;
      if chunkEnd > end {
        chunkEnd := end;
      }
      var h: uint64 := current;
      while h <= chunkEnd
        invariant current <= h <= chunkEnd + 1 && sent == DirectlySent(start, end, latest)[..h - start]
      {
        sent := sent + [Sent(h, QueueFor(latest, h))];
        h := h + 1;
      }
      current := chunkEnd + 1;
    }
  }

  /** The two ways of scheduling a range disagree on at most one height, the boundary of a split batch. */
  lemma DirectAgreesWithBatch(start: uint64, end: uint64, latest: uint64, i: nat)
    requires start <= end && !Lost(start, end, latest) && i <= end - start
    ensures |DirectlySent(start, end, latest)| == |Dispatched(start, end, latest)| == end - start + 1
    ensures DirectlySent(start, end, latest)[i] == Dispatched(start, end, latest)[i]
            <==> !(i > 0 && start + i + LIVE_BLOCK_THRESHOLD == latest)
  {
    DispatchedAt(start, end, latest, i);
    assert DirectlySent(start, end, latest)[i] == Sent(start + i, QueueFor(latest, start + i));
  }

  /** Every height of a batch is sent exactly once and no other is, unless the batch is lost; and
      the queue is the one a single start would pick, except for the boundary height of a split batch. */
  lemma BatchSplitExact(start: uint64, end: uint64, latest: uint64, height: uint64)
    requires start <= end
    ensures
      var sent := Dispatched(start, end, latest);
      && ((exists i :: 0 <= i < |sent| && sent[i].height == height) <==> start <= height <= end && !Lost(start, end, latest))
      && (forall i, j :: 0 <= i < j < |sent| ==> sent[i].height != sent[j].height)
      && (forall i :: 0 <= i < |sent| && sent[i].queue != QueueFor(latest, sent[i].height) ==>
            start < sent[i].height < end && sent[i].height + LIVE_BLOCK_THRESHOLD == latest)
      && (forall i :: 0 <= i < |sent| && start < sent[i].height && sent[i].height + LIVE_BLOCK_THRESHOLD == latest ==>
            sent[i].queue == Historical)
  {
    var sent := Dispatched(start, end, latest);
    if start <= height <= end && !Lost(start, end, latest) {
      DispatchedAt(start, end, latest, height - start);
      assert sent[height - start].height == height;
    }
    forall i | 0 <= i < |sent| ensures sent[i] == Sent(start + i, QueueInBatch(start, latest, start + i)) {
      DispatchedAt(start, end, latest, i);
    }
  }

  /** When the head cannot be read the code falls back to head 0, which makes every batch live. */
  lemma UnknownHeadGoesLive(start: uint64, end: uint64, i: nat)
    requires i < |Dispatched(start, end, 0)|
    ensures Dispatched(start, end, 0)[i].queue == Live
  {
    DispatchedAt(start, end, 0, i);
  }

  /** The i-th batch of a scheduler run is lost on its way to the queues. */
  ghost predicate LosesBatch(start: uint64, end: uint64, limit: uint64, latest: uint64, i: nat)
    requires limit >= 1
  {
    var bs := Batches(start, end, limit);
    i < |bs| && Lost(bs[i].lo, bs[i].hi, latest)
  }

  /** Scheduler and dispatch together, while the head stands still: some batch of the range is lost exactly when
      batches hold two heights or more and the boundary lies a whole number of batches below the end.
      With the head as the end, that is whenever the batch size divides 200. */
  lemma SchedulerLosesBatch(start: uint64, end: uint64, limit: uint64, latest: uint64)
    requires 1 <= limit && start <= end && end - start + 1 < TWO63
    ensures
      var boundary := latest - LIVE_BLOCK_THRESHOLD;
      (exists i: nat :: LosesBatch(start, end, limit, latest, i))
      <==> 0 < boundary && start < boundary <= end && limit >= 2 && (end - boundary) % limit == 0
  {
    var boundary := latest - LIVE_BLOCK_THRESHOLD;
    if i: nat :| LosesBatch(start, end, limit, latest, i) {
      LostBatchEnds(start, end, limit, latest, i);
    }
    if 0 < boundary && start < boundary <= end && limit >= 2 && (end - boundary) % limit == 0 {
      BoundaryBatch(start, end, limit, boundary);
      var i := (end - boundary) / limit;
      assert LosesBatch(start, end, limit, latest, i);
    }
  }

  lemma LostBatchEnds(start: uint64, end: uint64, limit: uint64, latest: uint64, i: nat)
    requires 1 <= limit && start <= end && end - start + 1 < TWO63 && LosesBatch(start, end, limit, latest, i)
    ensures
      var boundary := latest - LIVE_BLOCK_THRESHOLD;
      0 < boundary && start < boundary <= end && limit >= 2 && (end - boundary) % limit == 0
  {
    var b := Batches(start, end, limit)[i];
    BatchesTile(start, end, limit);
    TileInside(Batches(start, end, limit), start, end, i);
    BatchPosition(start, end, limit, i);
    assert b.lo < b.hi == latest - LIVE_BLOCK_THRESHOLD;
    assert end - b.hi == i * limit;
    DivisionUnique(i * limit, limit, i, 0);
  }

  /** A height a whole number of batches below the end is the newest of its batch. */
  lemma {:induction false} BoundaryBatch(start: uint64, end: uint64, limit: uint64, boundary: uint64)
    requires 2 <= limit && start < boundary <= end && end - start + 1 < TWO63 && (end - boundary) % limit == 0
    ensures
      var bs, i := Batches(start, end, limit), (end - boundary) / limit;
      0 <= i < |bs| && bs[i].hi == boundary && bs[i].lo < boundary
    decreases end
  {
    if boundary == end {
      assert (end - boundary) / limit == 0;
    } else {
      DivisibleGap(end - boundary, limit);
      BoundaryBatch(start, end - limit, limit, boundary);
    }
  }

  lemma DivisibleGap(gap: nat, limit: nat)
    requires limit >= 1 && gap > 0 && gap % limit == 0
    ensures gap >= limit && (gap - limit) % limit == 0 && (gap - limit) / limit == gap / limit - 1
  {
    var q := gap / limit;
    assert gap == q * limit;
    assert q >= 1;
    Distribute(q, limit);
    DivisionUnique(gap - limit, limit, q - 1, 0);
  }
}
