/** SchedulerWorkflow and ReindexSchedulerWorkflow: a range of heights is handed
    out newest first in batches, over any number of ContinueAsNew runs. */
module Scheduler {
  import opened Integers
  import opened Lists

  datatype Range = Range(lo: uint64, hi: uint64) {
    predicate Has(h: uint64) {
      lo <= h <= hi
    }
  }

  datatype Issued = Issued(range: Range, priority: nat)
  datatype Input = Input(start: uint64, end: uint64, latest: uint64, processedSoFar: uint64)
  datatype Config = Config(batchSize: uint64, blockTimeSeconds: uint64, threshold: uint64)

  const ULTRA_HIGH := 5
  const HIGH := 4
  const MEDIUM := 3
  const LOW := 2
  const ULTRA_LOW := 1

  const REINDEX_BATCH := 5000

  // ---------------------------------------------------------------- one run and the chain of runs

  function LimitOr(configured: uint64, fallback: uint64): (limit: uint64)
    ensures configured > 0 ==> limit == configured
    ensures configured == 0 ==> limit == fallback
  {
    if configured == 0 then fallback else configured
  }

  /** The 64-bit register current - start + 1, which is 0 on the full range. */
  function Length(start: uint64, current: uint64): uint64
    requires start <= current
  {
    if current - start + 1 == TWO64 then 0 else current - start + 1
  }

  /** The oldest height of the batch that ends at current. */
  function BatchStart(start: uint64, current: uint64, limit: uint64): (lo: uint64)
    requires start <= current && limit >= 1
    ensures start <= lo <= current
    ensures lo == start || current - lo + 1 == limit
  {
    if Length(start, current) <= limit then start else current - limit + 1
  }

  /** Every batch for start..end, newest first, whatever the division into runs. The full 64-bit range,
      whose length register is 0, goes out as one batch. */
  function Batches(start: uint64, end: int, limit: uint64): seq<Range>
    requires limit >= 1 && end < TWO64
    decreases end + 1
  {
    if end < start then []
    else
      var lo := BatchStart(start, end, limit);
      [Range(lo, end)] + Batches(start, lo - 1, limit)
  }

  /** processed += uint64(batchSize), in 64 bits. */
  function Advance(processed: uint64, batchStart: uint64, current: uint64, ghost end: uint64): (r: uint64)
    requires batchStart <= current <= end
    ensures processed == end - current && batchStart > 0 ==> r == end - (batchStart - 1)
  {
    Wrap64(processed + Wrap64(current - batchStart + 1))
  }

  /** What is issued, followed by the batches from current down, is what the whole range calls for. */
  ghost predicate OnTrack(issued: seq<Range>, start: uint64, current: int, end: uint64, limit: uint64)
    requires limit >= 1 && current < TWO64
  {
    issued + Batches(start, current, limit) == Batches(start, end, limit)
  }

  lemma OnTrackStep(issued: seq<Range>, start: uint64, current: uint64, end: uint64, limit: uint64)
    requires limit >= 1 && start <= current && OnTrack(issued, start, current, end, limit)
    ensures
      var lo := BatchStart(start, current, limit);
      OnTrack(issued + [Range(lo, current)], start, lo - 1, end, limit)
  {
    var lo: int := BatchStart(start, current, limit);
    var rest := Batches(start, lo - 1, limit);
    assert issued + ([Range(lo, current)] + rest) == (issued + [Range(lo, current)]) + rest;
  }

  lemma OnTrackDone(issued: seq<Range>, start: uint64, current: int, end: uint64, limit: uint64)
    requires limit >= 1 && current < start && OnTrack(issued, start, current, end, limit)
    ensures OnTrack(issued, start, -1, end, limit) && issued == Batches(start, end, limit)
  {
  }

  /** One run of the batch loop. It stops at the bottom of the range, or hands over the rest of it
      as soon as the heights it has issued reach the threshold. */
  method RunBatches(start: uint64, end: uint64, processedSoFar: uint64, limit: uint64, threshold: uint64)
    returns (issued: seq<Range>, rest: Option<uint64>)
    requires limit >= 1
    ensures OnTrack(issued, start, Left(rest), end, limit)
    ensures rest.Some? ==> start <= rest.value < end && issued != []
    ensures processedSoFar == 0 && rest.Some? ==> end - rest.value >= threshold
    ensures processedSoFar == 0 && threshold >= 1 && issued != [] ==> end - issued[|issued| - 1].hi < threshold
  {
    issued := [];
    var current: uint64, processed: uint64 := end, processedSoFar;
    while current >= start
      invariant current <= end && (issued == [] ==> current == end)
      invariant OnTrack(issued, start, current, end, limit)
      invariant current >= start && processedSoFar == 0 ==> processed == end - current
      invariant current >= start && processedSoFar == 0 && issued != [] ==> processed < threshold
      invariant processedSoFar == 0 && threshold >= 1 && issued != [] ==> end - issued[|issued| - 1].hi < threshold
      decreases current
    {
      var batchStart := BatchStart(start, current, limit);
      OnTrackStep(issued, start, current, end, limit);
      processed := Advance(processed, batchStart, current, end);
      issued := issued + [Range(batchStart, current)];
      if batchStart == 0 {
        OnTrackDone(issued, start, -1, end, limit);
        return issued, None;
      }
      current := batchStart - 1;
      if processed >= threshold && current >= start {
        return issued, Some(current);
      }
    }
    OnTrackDone(issued, start, current, end, limit);
    return issued, None;
  }

  function Ranges(issued: seq<Issued>): seq<Range> {
    seq(|issued|, i requires 0 <= i < |issued| => issued[i].range)
  }

  /** Every batch carries the priority of its newest height. */
  ghost predicate Prioritized(issued: seq<Issued>, latest: uint64, blockTimeSeconds: uint64) {
    forall b :: b in issued ==> b.priority == CalculateBlockPriority(latest, b.range.hi, blockTimeSeconds, false)
  }

  /** The newest height still to be issued, if there is a continuation. */
  function Left(rest: Option<uint64>): (current: int)
    ensures current < TWO64
  {
    if rest.Some? then rest.value else -1
  }

  function EndOf(next: Option<Input>): Option<uint64> {
    if next.Some? then Some(next.value.end) else None
  }

  method SchedulerWorkflow(config: Config, input: Input) returns (issued: seq<Issued>, next: Option<Input>)
    ensures OnTrack(Ranges(issued), input.start, Left(EndOf(next)), input.end, LimitOr(config.batchSize, 1))
    ensures Prioritized(issued, input.latest, config.blockTimeSeconds)
    ensures next.Some? ==>
              next.value == input.(end := next.value.end, processedSoFar := 0) && input.start <= next.value.end < input.end
    ensures input.processedSoFar == 0 && config.threshold >= 1 && issued != [] && input.end - input.start + 1 < TWO64 ==>
              (|issued| - 1) * LimitOr(config.batchSize, 1) < config.threshold
    ensures input.processedSoFar == 0 && config.threshold >= 1 && next.Some? && input.end - input.start + 1 < TWO64 ==>
              |issued| * LimitOr(config.batchSize, 1) >= config.threshold
  {
    var ranges, rest :=
      RunBatches(input.start, input.end, input.processedSoFar, LimitOr(config.batchSize, 1), config.threshold);
    issued := seq(|ranges|, i requires 0 <= i < |ranges| =>
      Issued(ranges[i], CalculateBlockPriority(input.latest, ranges[i].hi, config.blockTimeSeconds, false)));
    assert Ranges(issued) == ranges;
    if input.processedSoFar == 0 && config.threshold >= 1 && ranges != [] && input.end - input.start + 1 < TWO64 {
      RunLength(input.start, input.end, LimitOr(config.batchSize, 1), ranges, rest, config.threshold);
    }
    next := match rest
      case None => None
      case Some(end) => Some(Input(input.start, end, input.latest, 0));
  }

  lemma OnTrackChain(issued: seq<Range>, more: seq<Range>, start: uint64, mid: uint64, current: int, end: uint64, limit: uint64)
    requires limit >= 1 && start <= mid && current < TWO64
    requires OnTrack(issued, start, mid, end, limit) && OnTrack(more, start, current, mid, limit)
    ensures OnTrack(issued + more, start, current, end, limit)
  {
    var rest := Batches(start, current, limit);
    assert issued + (more + rest) == (issued + more) + rest;
  }

  /** The chain of ContinueAsNew runs: it ends, and together the runs issue exactly the batches of the whole range. */
  method SchedulerChain(config: Config, input: Input) returns (issued: seq<Issued>)
    ensures Ranges(issued) == Batches(input.start, input.end, if config.batchSize == 0 then 1 else config.batchSize)
    ensures Prioritized(issued, input.latest, config.blockTimeSeconds)
  {
    var limit := LimitOr(config.batchSize, 1);
    var next;
    issued, next := SchedulerWorkflow(config, input);
    while next.Some?
      invariant next.Some? ==>
                  next.value.start == input.start <= next.value.end && next.value.latest == input.latest
      invariant Prioritized(issued, input.latest, config.blockTimeSeconds)
      invariant OnTrack(Ranges(issued), input.start, Left(EndOf(next)), input.end, limit)
      decreases Left(EndOf(next))
    {
      ghost var mid := next.value.end;
      var more;
      more, next := SchedulerWorkflow(config, next.value);
      OnTrackChain(Ranges(issued), Ranges(more), input.start, mid, Left(EndOf(next)), input.end, limit);
      assert Ranges(issued + more) == Ranges(issued) + Ranges(more);
      issued := issued + more;
    }
  }

  method ReindexSchedulerChain(start: uint64, end: uint64, processedSoFar: uint64, config: Config)
    returns (issued: seq<Range>)
    ensures issued == Batches(start, end, if config.batchSize == 0 then 5000 else config.batchSize)
  {
    var limit := LimitOr(config.batchSize, REINDEX_BATCH);
    var rest;
    issued, rest := RunBatches(start, end, processedSoFar, limit, config.threshold);
    while rest.Some?
      invariant rest.Some? ==> start <= rest.value
      invariant OnTrack(issued, start, Left(rest), end, limit)
      decreases Left(rest)
    {
      ghost var mid := rest.value;
      var more;
      more, rest := RunBatches(start, rest.value, 0, limit, config.threshold);
      OnTrackChain(issued, more, start, mid, Left(rest), end, limit);
      issued := issued + more;
    }
  }

  // ---------------------------------------------------------------- the batches partition the range

  /** Newest first, without hole or overlap, from end down to start. */
  ghost predicate Tiles(batches: seq<Range>, start: uint64, end: uint64) {
    && batches != [] && batches[0].hi == end && batches[|batches| - 1].lo == start
    && (forall i :: 0 <= i < |batches| ==> batches[i].lo <= batches[i].hi)
    && (forall i, j :: 0 <= i && j == i + 1 && j < |batches| ==> batches[i].lo == batches[j].hi + 1)
  }

  lemma TilesCons(first: Range, rest: seq<Range>, start: uint64, end: uint64)
    requires first.lo <= first.hi == end && start < first.lo && Tiles(rest, start, first.lo - 1)
    ensures Tiles([first] + rest, start, end)
  {
    var bs := [first] + rest;
    forall i, j | 0 <= i && j == i + 1 && j < |bs| ensures bs[i].lo == bs[j].hi + 1 {
      assert bs[j] == rest[j - 1];
      assert i > 0 ==> bs[i] == rest[i - 1];
    }
  }

  lemma {:induction false} BatchesTile(start: uint64, end: uint64, limit: uint64)
    requires limit >= 1 && start <= end
    ensures Tiles(Batches(start, end, limit), start, end)
    decreases end
  {
    var lo := BatchStart(start, end, limit);
    if lo > start {
      BatchesTile(start, lo - 1, limit);
      TilesCons(Range(lo, end), Batches(start, lo - 1, limit), start, end);
    } else {
      assert Batches(start, end, limit) == [Range(start, end)];
    }
  }

  /** The end of batch i, counted down by limits. */
  function EndOfBatch(end: int, limit: int, i: nat): int {
    end - i * limit
  }

  lemma OneBatchDown(end: int, limit: int, i: nat)
    ensures i == 0 ==> EndOfBatch(end, limit, i) == end
    ensures i > 0 ==> EndOfBatch(end, limit, i) == EndOfBatch(end - limit, limit, i - 1)
  {
    Distribute(i, limit);
  }

  lemma {:induction false} BatchEnds(start: uint64, end: uint64, limit: uint64, i: nat, hi: int)
    requires limit >= 1 && start <= end && end - start + 1 < TWO64 && i < |Batches(start, end, limit)|
    requires hi == EndOfBatch(end, limit, i)
    ensures
      var bs := Batches(start, end, limit);
      bs[i].hi == hi && if i < |bs| - 1 then bs[i].hi - bs[i].lo + 1 == limit else bs[i].hi - bs[i].lo + 1 <= limit
    decreases end
  {
    var lo := BatchStart(start, end, limit);
    var rest := Batches(start, lo - 1, limit);
    assert Batches(start, end, limit) == [Range(lo, end)] + rest;
    OneBatchDown(end, limit, i);
    if i > 0 {
      assert rest != [] && lo - 1 >= start;
      BatchEnds(start, lo - 1, limit, i - 1, hi);
      assert Batches(start, end, limit)[i] == rest[i - 1];
    }
  }

  /** Except on the full 64-bit range every batch but the last has the configured size, and the last is no larger. */
  lemma BatchPosition(start: uint64, end: uint64, limit: uint64, i: nat)
    requires limit >= 1 && start <= end && end - start + 1 < TWO64 && i < |Batches(start, end, limit)|
    ensures Batches(start, end, limit)[i].hi == end - i * limit
    ensures
      var b := Batches(start, end, limit)[i];
      if i < |Batches(start, end, limit)| - 1 then b.hi - b.lo + 1 == limit else b.hi - b.lo + 1 <= limit
  {
    BatchEnds(start, end, limit, i, EndOfBatch(end, limit, i));
  }

  /** What one run started at zero issues: it hands over once threshold heights are out, so ceil(threshold / limit)
      batches, and never more than that even when it ends by itself. */
  lemma RunLength(start: uint64, end: uint64, limit: uint64, issued: seq<Range>, rest: Option<uint64>, threshold: uint64)
    requires limit >= 1 && threshold >= 1 && start <= end && end - start + 1 < TWO64
    requires OnTrack(issued, start, Left(rest), end, limit) && issued != []
    requires rest.Some? ==> start <= rest.value && end - rest.value >= threshold
    requires end - issued[|issued| - 1].hi < threshold
    ensures (|issued| - 1) * limit < threshold
    ensures rest.Some? ==> |issued| * limit >= threshold
  {
    var bs := Batches(start, end, limit);
    var n := |issued|;
    assert bs[n - 1] == issued[n - 1];
    BatchPosition(start, end, limit, n - 1);
    if rest.Some? {
      assert bs[n] == Batches(start, rest.value, limit)[0];
      BatchPosition(start, end, limit, n);
    }
  }

  lemma {:induction false} TilesOrdered(batches: seq<Range>, start: uint64, end: uint64, i: nat, j: nat)
    requires Tiles(batches, start, end) && i < j < |batches|
    ensures batches[j].hi < batches[i].lo
  {
    if i + 1 < j {
      TilesOrdered(batches, start, end, i, j - 1);
    }
  }

  lemma TileInside(batches: seq<Range>, start: uint64, end: uint64, i: nat)
    requires Tiles(batches, start, end) && i < |batches|
    ensures start <= batches[i].lo && batches[i].hi <= end
  {
    if i > 0 {
      TilesOrdered(batches, start, end, 0, i);
    }
    if i < |batches| - 1 {
      TilesOrdered(batches, start, end, i, |batches| - 1);
    }
  }

  lemma {:induction false} TilesReach(batches: seq<Range>, start: uint64, end: uint64, h: uint64, i: nat)
    requires Tiles(batches, start, end) && i < |batches| && start <= h <= batches[i].hi
    ensures exists j :: i <= j < |batches| && batches[j].Has(h)
    decreases |batches| - i
  {
    if h < batches[i].lo {
      TilesReach(batches, start, end, h, i + 1);
    } else {
      assert batches[i].Has(h);
    }
  }

  /** Height h is in exactly one of the batches if it is in start..end, and in none otherwise. */
  ghost predicate PartitionsAt(batches: seq<Range>, start: uint64, end: uint64, h: uint64) {
    && (start <= h <= end <==> exists i :: 0 <= i < |batches| && batches[i].Has(h))
    && (forall i, j :: 0 <= i < |batches| && 0 <= j < |batches| && batches[i].Has(h) && batches[j].Has(h) ==> i == j)
  }

  lemma TilesPartition(batches: seq<Range>, start: uint64, end: uint64, h: uint64)
    requires Tiles(batches, start, end)
    ensures PartitionsAt(batches, start, end, h)
  {
    if start <= h <= end {
      TilesReach(batches, start, end, h, 0);
    }
    forall i | 0 <= i < |batches| && batches[i].Has(h) ensures start <= h <= end {
      TileInside(batches, start, end, i);
    }
    forall i, j | 0 <= i < j < |batches| ensures batches[j].hi < batches[i].lo {
      TilesOrdered(batches, start, end, i, j);
    }
  }

  /** Each height of the range is in exactly one batch and no other height is in any. */
  lemma BatchesPartition(start: uint64, end: uint64, limit: uint64, h: uint64)
    requires limit >= 1
    ensures PartitionsAt(Batches(start, end, limit), start, end, h)
  {
    if start <= end {
      BatchesTile(start, end, limit);
      TilesPartition(Batches(start, end, limit), start, end, h);
    }
  }

  // ---------------------------------------------------------------- priorities

  /** The priority of a block of a known age in seconds. */
  function AgePriority(age: nat): nat {
    if age / 3600 <= 24 then HIGH else if age / 3600 <= 48 then MEDIUM else if age / 3600 <= 72 then LOW else ULTRA_LOW
  }

  function CalculateBlockPriority(latest: uint64, height: uint64, blockTimeSeconds: uint64, isLive: bool): nat {
    if isLive then ULTRA_HIGH
    else if height >= latest then HIGH
    else AgePriority(Wrap64((latest - height) * blockTimeSeconds))
  }

  /** Live blocks come first, and a block that is not live but at or above the head ranks with the newest. */
  lemma PriorityAtHead(latest: uint64, height: uint64, blockTimeSeconds: uint64)
    ensures CalculateBlockPriority(latest, height, blockTimeSeconds, true) == 5
    ensures height >= latest ==> CalculateBlockPriority(latest, height, blockTimeSeconds, false) == 4
  {
  }

  /** The windows in hours: whole hours are counted down, so each one is an hour wider than its label. */
  lemma PriorityWindows(latest: uint64, height: uint64, blockTimeSeconds: uint64)
    requires height < latest && (latest - height) * blockTimeSeconds < TWO64
    ensures
      var age := (latest - height) * blockTimeSeconds;
      && (CalculateBlockPriority(latest, height, blockTimeSeconds, false) == 4 <==> age < 25 * 3600)
      && (CalculateBlockPriority(latest, height, blockTimeSeconds, false) == 3 <==> 25 * 3600 <= age < 49 * 3600)
      && (CalculateBlockPriority(latest, height, blockTimeSeconds, false) == 2 <==> 49 * 3600 <= age < 73 * 3600)
      && (CalculateBlockPriority(latest, height, blockTimeSeconds, false) == 1 <==> 73 * 3600 <= age)
  {
    WrapFits((latest - height) * blockTimeSeconds);
    AgeWindows((latest - height) * blockTimeSeconds);
  }

  lemma AgeWindows(age: nat)
    ensures AgePriority(age) ==
            if age < 25 * 3600 then 4 else if age < 49 * 3600 then 3 else if age < 73 * 3600 then 2 else 1
  {
  }

  lemma AgePriorityFalls(a: nat, b: nat)
    requires a <= b < TWO64
    ensures AgePriority(Wrap64(b)) <= AgePriority(Wrap64(a))
  {
    WrapFits(a);
    WrapFits(b);
  }

  lemma OrderedWithoutOverflow(latest: uint64, blockTimeSeconds: uint64, older: uint64, newer: uint64)
    requires older <= newer && (latest - older) * blockTimeSeconds < TWO64
    ensures CalculateBlockPriority(latest, older, blockTimeSeconds, false)
         <= CalculateBlockPriority(latest, newer, blockTimeSeconds, false)
  {
    if newer < latest {
      Scale(latest - newer, latest - older, blockTimeSeconds);
      AgePriorityFalls((latest - newer) * blockTimeSeconds, (latest - older) * blockTimeSeconds);
    }
  }

  /** No newer block ranks below an older one, from start up. */
  ghost predicate NewerFirst(latest: uint64, start: uint64, blockTimeSeconds: uint64) {
    forall older: uint64, newer: uint64 :: start <= older <= newer ==>
      CalculateBlockPriority(latest, older, blockTimeSeconds, false)
      <= CalculateBlockPriority(latest, newer, blockTimeSeconds, false)
  }

  /** With a block time of at most 25 hours, priorities follow age exactly when the age product of the
      oldest height fits in 64 bits: past that the register wraps and an ancient block looks new. */
  lemma NewerFirstIffNoOverflow(latest: uint64, start: uint64, blockTimeSeconds: uint64)
    requires start <= latest && blockTimeSeconds < 90000
    ensures NewerFirst(latest, start, blockTimeSeconds) <==> (latest - start) * blockTimeSeconds < TWO64
  {
    var bts := blockTimeSeconds;
    if (latest - start) * bts < TWO64 {
      forall older: uint64, newer: uint64 | start <= older <= newer
        ensures CalculateBlockPriority(latest, older, bts, false) <= CalculateBlockPriority(latest, newer, bts, false)
      {
        Scale(if older <= latest then latest - older else 0, latest - start, bts);
        if older <= latest {
          OrderedWithoutOverflow(latest, bts, older, newer);
        }
      }
    } else {
      var d := FirstOverflow(latest - start, bts);
      var older: uint64, newer: uint64 := latest - d, latest - (d - 1);
      assert d * bts == (d - 1) * bts + bts;
      WrapFits(d * bts);
      WrapFits((d - 1) * bts);
      assert CalculateBlockPriority(latest, older, bts, false) == HIGH;
      assert CalculateBlockPriority(latest, newer, bts, false) == ULTRA_LOW;
    }
  }

  /** The least distance whose age product does not fit. */
  lemma {:induction false} FirstOverflow(far: nat, blockTimeSeconds: nat) returns (d: nat)
    requires far * blockTimeSeconds >= TWO64
    ensures 1 <= d <= far && (d - 1) * blockTimeSeconds < TWO64 <= d * blockTimeSeconds
  {
    assert 0 * blockTimeSeconds == 0;
    d := far;
    while d > 1 && (d - 1) * blockTimeSeconds >= TWO64
      invariant 1 <= d <= far && d * blockTimeSeconds >= TWO64
    {
      d := d - 1;
    }
  }

  /** Batches go out in falling priority, and no height is issued below its own priority. */
  lemma BatchPriorities(latest: uint64, start: uint64, end: uint64, limit: uint64, blockTimeSeconds: uint64)
    requires limit >= 1 && (latest - start) * blockTimeSeconds < TWO64
    ensures
      var bs := Batches(start, end, limit);
      && (forall i, j :: 0 <= i < j < |bs| ==>
            CalculateBlockPriority(latest, bs[j].hi, blockTimeSeconds, false)
            <= CalculateBlockPriority(latest, bs[i].hi, blockTimeSeconds, false))
      && (forall i, h: uint64 :: 0 <= i < |bs| && bs[i].Has(h) ==>
            CalculateBlockPriority(latest, h, blockTimeSeconds, false)
            <= CalculateBlockPriority(latest, bs[i].hi, blockTimeSeconds, false))
  {
    var bs := Batches(start, end, limit);
    if start <= end {
      BatchesTile(start, end, limit);
      forall i, h: uint64 | 0 <= i < |bs| && bs[i].Has(h)
        ensures CalculateBlockPriority(latest, h, blockTimeSeconds, false)
             <= CalculateBlockPriority(latest, bs[i].hi, blockTimeSeconds, false)
      {
        TileInside(bs, start, end, i);
        RangeOrdered(latest, start, blockTimeSeconds, h, bs[i].hi);
      }
      forall i, j | 0 <= i < j < |bs|
        ensures CalculateBlockPriority(latest, bs[j].hi, blockTimeSeconds, false)
             <= CalculateBlockPriority(latest, bs[i].hi, blockTimeSeconds, false)
      {
        TilesOrdered(bs, start, end, i, j);
        TileInside(bs, start, end, j);
        RangeOrdered(latest, start, blockTimeSeconds, bs[j].hi, bs[i].hi);
      }
    }
  }

  lemma RangeOrdered(latest: uint64, start: uint64, blockTimeSeconds: uint64, older: uint64, newer: uint64)
    requires start <= older <= newer && (latest - start) * blockTimeSeconds < TWO64
    ensures CalculateBlockPriority(latest, older, blockTimeSeconds, false)
         <= CalculateBlockPriority(latest, newer, blockTimeSeconds, false)
  {
    if older < latest {
      Scale(latest - older, latest - start, blockTimeSeconds);
      OrderedWithoutOverflow(latest, blockTimeSeconds, older, newer);
    }
  }
}
