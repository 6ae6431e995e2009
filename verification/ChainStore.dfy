/** The chain store and the activities of one IndexBlock workflow executed in
    sequence, as the workflow code itself orders them. */
module ChainStore {
  import opened CommitProtocol
  import opened Lists

  /** One row of index_progress; the clock counts hours. */
  datatype Progress = Progress(height: nat, indexedAt: nat)

  const DEFAULT_LOOKBACK_HOURS := 2

  lemma EveryEntityListed(e: Entity)
    ensures e in STAGING_ENTITIES
  {
  }

  /** SELECT DISTINCT height WHERE indexed_at >= now - lookback. */
  function CleanableHeights(progress: seq<Progress>, now: nat, lookback: nat): set<nat> {
    set p | p in progress && p.indexedAt + lookback >= now :: p.height
  }

  /** Nothing in the table was computed without the events of its height. */
  ghost predicate Sighted(t: Table) {
    forall slot, c :: c in Contents(t, slot) ==> c.sighted
  }

  lemma InsertSighted(t: Table, slot: Slot, contents: seq<Content>)
    requires Sighted(t) && forall c :: c in contents ==> c.sighted
    ensures Sighted(Insert(t, slot, contents))
  {
    var t' := Insert(t, slot, contents);
    forall other, c | c in Contents(t', other) ensures c.sighted {
      if other == slot {
        assert c in Contents(t, slot) || c in contents;
      } else {
        assert c in Contents(t, other);
      }
    }
  }

  /** Only slots of this height have changed. */
  ghost predicate SameElsewhere(before: Table, now: Table, height: nat) {
    forall slot: Slot :: slot.height != height ==>
      Contents(now, slot) == Contents(before, slot) && (slot in now <==> slot in before)
  }

  /** The listed entities that are staged between events and summary show the run's data. */
  ghost predicate StagedUpTo(t: Table, height: nat, run: nat, done: seq<Entity>) {
    forall e :: e in done && e != BlockSummaries ==> Latest(t, Slot(e, height)) == [Content(run, true)]
  }

  lemma StagedOne(start: Table, t: Table, e: Entity, height: nat, run: nat)
    requires Sighted(t) && SameElsewhere(start, t, height) && (e == Events || Slot(Events, height) in t)
    ensures
      var t' := StageSlot(t, run, Slot(e, height));
      && Sighted(t') && SameElsewhere(start, t', height) && Slot(Events, height) in t'
      && Latest(t', Slot(e, height)) == [Content(run, true)]
      && forall other :: other != Slot(e, height) ==> Contents(t', other) == Contents(t, other)
  {
    InsertSighted(t, Slot(e, height), [Content(run, true)]);
  }

  /** What the indexing loop keeps. */
  ghost predicate Staging(start: Table, t: Table, height: nat, run: nat, done: seq<Entity>) {
    && Slot(Events, height) in t && Sighted(t) && SameElsewhere(start, t, height)
    && Latest(t, Slot(Events, height)) == [Content(run, true)] && StagedUpTo(t, height, run, done)
  }

  lemma StagedNext(start: Table, t: Table, height: nat, run: nat, done: seq<Entity>, e: Entity)
    requires Staging(start, t, height, run, done)
    ensures
      var t' := if e == Events || e == BlockSummaries then t else StageSlot(t, run, Slot(e, height));
      Staging(start, t', height, run, done + [e])
  {
    StagedOne(start, t, e, height, run);
  }

  lemma StagedLast(start: Table, t: Table, height: nat, run: nat, done: seq<Entity>)
    requires Staging(start, t, height, run, done) && forall e: Entity :: e in done
    ensures
      var t' := StageSlot(t, run, Slot(BlockSummaries, height));
      && Sighted(t') && SameElsewhere(start, t', height)
      && forall e: Entity :: Latest(t', Slot(e, height)) == [Content(run, true)]
  {
    var t' := StageSlot(t, run, Slot(BlockSummaries, height));
    StagedOne(start, t, BlockSummaries, height, run);
    forall e: Entity ensures Latest(t', Slot(e, height)) == [Content(run, true)] {
      if e != BlockSummaries {
        assert e in done && Contents(t', Slot(e, height)) == Contents(t, Slot(e, height));
      }
    }
  }

  ghost predicate PromotedUpTo(t: Table, height: nat, run: nat, i: nat)
    requires i <= |STAGING_ENTITIES|
  {
    forall k :: 0 <= k < i ==> Latest(t, Slot(STAGING_ENTITIES[k], height)) == [Content(run, true)]
  }

  lemma PromotedNext(production: Table, staging: Table, height: nat, run: nat, i: nat)
    requires i < |STAGING_ENTITIES| && PromotedUpTo(production, height, run, i)
    requires Latest(staging, Slot(STAGING_ENTITIES[i], height)) == [Content(run, true)]
    ensures PromotedUpTo(PromoteSlot(production, staging, Slot(STAGING_ENTITIES[i], height)), height, run, i + 1)
  {
    var slot := Slot(STAGING_ENTITIES[i], height);
    LatestInsert(production, slot, staging[slot], slot);
  }

  lemma EveryEntityPromoted(t: Table, height: nat, run: nat)
    requires PromotedUpTo(t, height, run, |STAGING_ENTITIES|)
    ensures forall e: Entity :: Latest(t, Slot(e, height)) == [Content(run, true)]
  {
    forall e: Entity ensures Latest(t, Slot(e, height)) == [Content(run, true)] {
      EveryEntityListed(e);
    }
  }

  lemma PartSighted(t: Table, part: Table)
    requires Sighted(t) && forall slot :: slot in part ==> slot in t && part[slot] == t[slot]
    ensures Sighted(part)
  {
    forall slot, c | c in Contents(part, slot) ensures c.sighted {
      assert c in Contents(t, slot);
    }
  }

  lemma PromotedOne(start: Table, production: Table, staging: Table, e: Entity, height: nat, run: nat)
    requires Sighted(production) && Sighted(staging) && SameElsewhere(start, production, height)
    requires Latest(staging, Slot(e, height)) == [Content(run, true)]
    ensures
      var t := PromoteSlot(production, staging, Slot(e, height));
      && Sighted(t) && SameElsewhere(start, t, height) && Latest(t, Slot(e, height)) == [Content(run, true)]
      && forall other :: other != Slot(e, height) ==> Contents(t, other) == Contents(production, other)
  {
    var slot := Slot(e, height);
    assert forall c :: c in staging[slot] ==> c in Contents(staging, slot);
    InsertSighted(production, slot, staging[slot]);
    LatestInsert(production, slot, staging[slot], slot);
  }

  class Store {
    var staging: Table
    var production: Table
    var progress: seq<Progress>

    /** What the sequential workflow relies on and keeps: a block row or a progress row vouches for the whole height,
        and nothing anywhere was computed without the events of its height. */
    ghost predicate Valid()
      reads this
    {
      && (forall h, e: Entity :: Slot(Blocks, h) in production ==> Slot(e, h) in production)
      && (forall p :: p in progress ==> Slot(Blocks, p.height) in production)
      && AllSighted()
    }

    ghost predicate AllSighted()
      reads this
    {
      Sighted(staging) && Sighted(production)
    }

    constructor ()
      ensures Valid() && staging == map[] && production == map[] && progress == []
    {
      staging, production, progress := map[], map[], [];
    }

    method PrepareIndexBlock(height: nat, reindex: bool) returns (skip: bool)
      ensures skip <==> !reindex && Slot(Blocks, height) in production
    {
      var indexed := Slot(Blocks, height) in production;
      if !reindex && indexed {
        return true;
      }
      return false;
    }

    /** An activity of run inserts its rows, having read the staged events of the height if it needs them. */
    method StageEntity(entity: Entity, height: nat, run: nat)
      modifies this`staging
      ensures staging == StageSlot(old(staging), run, Slot(entity, height))
    {
      var slot, sighted := Slot(entity, height), entity == Events || Slot(Events, height) in staging;
      var before := Contents(staging, slot);
      staging := staging[slot := before + [Content(run, sighted)]];
    }

    method PromoteEntity(entity: Entity, height: nat)
      modifies this`production
      ensures production == PromoteSlot(old(production), staging, Slot(entity, height))
      ensures Contents(production, Slot(entity, height))
              == Contents(old(production), Slot(entity, height)) + Contents(staging, Slot(entity, height))
      ensures forall slot :: slot != Slot(entity, height) ==> Untouched(old(production), production, slot)
    {
      var slot := Slot(entity, height);
      if slot in staging {
        var before := Contents(production, slot);
        production := production[slot := before + staging[slot]];
      }
    }

    /** One DELETE per staging table; other heights and the production tables are untouched. */
    method CleanStagingBatch(heights: set<nat>) returns (cleaned: nat)
      modifies this`staging
      ensures forall slot :: slot in staging <==> slot in old(staging) && slot.height !in heights
      ensures forall slot :: slot in staging ==> staging[slot] == old(staging)[slot]
      ensures cleaned == if heights == {} then 0 else |STAGING_ENTITIES|
    {
      if heights == {} {
        return 0;
      }
      for i := 0 to |STAGING_ENTITIES|
        invariant forall slot :: slot in staging <==>
                    slot in old(staging) && !(slot.height in heights && slot.entity in STAGING_ENTITIES[..i])
        invariant forall slot :: slot in staging ==> staging[slot] == old(staging)[slot]
      {
        assert STAGING_ENTITIES[..i + 1] == STAGING_ENTITIES[..i] + [STAGING_ENTITIES[i]];
        staging := CleanSlots(staging, STAGING_ENTITIES[i], heights);
      }
      assert STAGING_ENTITIES[..|STAGING_ENTITIES|] == STAGING_ENTITIES;
      forall slot | slot in old(staging) ensures slot.entity in STAGING_ENTITIES {
        EveryEntityListed(slot.entity);
      }
      cleaned := |STAGING_ENTITIES|;
    }

    /** Progress is appended only once the block row is in production; otherwise the activity fails and is retried. */
    method RecordIndexed(height: nat, now: nat) returns (ok: bool)
      modifies this`progress
      ensures ok <==> Slot(Blocks, height) in production
      ensures progress == if ok then old(progress) + [Progress(height, now)] else old(progress)
    {
      ok := Slot(Blocks, height) in production;
      if ok {
        progress := progress + [Progress(height, now)];
      }
    }

    /** The indexing barrier: events first, as the other activities read them; the summary last, as it aggregates
        the others; in between one activity per entity. Every activity sees the events. */
    method StageAll(height: nat, run: nat)
      requires Sighted(staging)
      modifies this`staging
      ensures Sighted(staging)
      ensures forall e: Entity :: Latest(staging, Slot(e, height)) == [Content(run, true)]
      ensures SameElsewhere(old(staging), staging, height)
    {
      ghost var start := staging;
      StageEntity(Events, height, run);
      StagedOne(start, start, Events, height, run);
      for i := 0 to |STAGING_ENTITIES|
        invariant Staging(start, staging, height, run, STAGING_ENTITIES[..i])
      {
        var e := STAGING_ENTITIES[i];
        assert STAGING_ENTITIES[..i + 1] == STAGING_ENTITIES[..i] + [e];
        StagedNext(start, staging, height, run, STAGING_ENTITIES[..i], e);
        if e != Events && e != BlockSummaries {
          StageEntity(e, height, run);
        }
      }
      assert STAGING_ENTITIES[..|STAGING_ENTITIES|] == STAGING_ENTITIES;
      forall e: Entity ensures e in STAGING_ENTITIES {
        EveryEntityListed(e);
      }
      StagedLast(start, staging, height, run, STAGING_ENTITIES);
      StageEntity(BlockSummaries, height, run);
    }

    /** The promotion barrier: every entity of the height is copied from staging. */
    method PromoteAll(height: nat, run: nat)
      requires Sighted(staging) && Sighted(production)
      requires forall e: Entity :: Latest(staging, Slot(e, height)) == [Content(run, true)]
      modifies this`production
      ensures Sighted(production)
      ensures forall e: Entity :: Latest(production, Slot(e, height)) == [Content(run, true)]
      ensures SameElsewhere(old(production), production, height)
    {
      ghost var start := production;
      for i := 0 to |STAGING_ENTITIES|
        invariant Sighted(production) && SameElsewhere(start, production, height)
        invariant PromotedUpTo(production, height, run, i)
      {
        PromotedNext(production, staging, height, run, i);
        PromotedOne(start, production, staging, STAGING_ENTITIES[i], height, run);
        PromoteEntity(STAGING_ENTITIES[i], height);
      }
      EveryEntityPromoted(production, height, run);
    }

    /** The whole workflow for one height. A skipped height is only recorded; any other ends with
        its twenty slots showing the data just fetched, all of it computed with the events at hand. */
    method IndexBlock(height: nat, reindex: bool, run: nat, now: nat) returns (ok: bool)
      requires Valid()
      modifies this
      ensures Valid() && ok
      ensures progress == old(progress) + [Progress(height, now)]
      ensures
        if !reindex && Slot(Blocks, height) in old(production)
        then production == old(production) && staging == old(staging)
        else
          && (forall e: Entity :: Latest(production, Slot(e, height)) == Latest(staging, Slot(e, height)) == [Content(run, true)])
          && SameElsewhere(old(production), production, height) && SameElsewhere(old(staging), staging, height)
    {
      var skip := PrepareIndexBlock(height, reindex);
      if !skip {
        StageAll(height, run);
        PromoteAll(height, run);
        assert forall e: Entity :: Latest(production, Slot(e, height)) != [] ==> Slot(e, height) in production;
      }
      ok := RecordIndexed(height, now);
    }

    /** The hourly cleanup. It reads the recorded heights of the window, then empties their staging slots;
        every slot it deletes belongs to a height that production holds completely. */
    method CleanupStaging(now: nat, lookbackHours: nat) returns (heightsCleaned: nat)
      requires Valid()
      modifies this`staging
      ensures Valid()
      ensures
        var lookback := if lookbackHours == 0 then DEFAULT_LOOKBACK_HOURS else lookbackHours;
        var heights := CleanableHeights(progress, now, lookback);
        && heightsCleaned == |heights|
        && (forall slot :: slot in staging <==> slot in old(staging) && slot.height !in heights)
        && (forall slot :: slot in old(staging) && slot !in staging ==> slot in production)
      ensures forall slot :: slot in old(staging) ==>
                (slot !in staging <==>
                   exists p :: p in progress && p.height == slot.height
                               && now - p.indexedAt <= if lookbackHours == 0 then 2 else lookbackHours)
      ensures forall slot :: slot in staging ==> slot in old(staging) && staging[slot] == old(staging)[slot]
    {
      var lookback := if lookbackHours == 0 then DEFAULT_LOOKBACK_HOURS else lookbackHours;
      var heights := CleanableHeights(progress, now, lookback);
      if heights == {} {
        return 0;
      }
      ghost var before := staging;
      var _ := CleanStagingBatch(heights);
      PartSighted(before, staging);
      heightsCleaned := |heights|;
    }
  }
}
