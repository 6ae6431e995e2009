/** IndexPools: pool rows with H-1 deltas at every height, and pool-holder rows
    that are written for every holder of a pool whose total points changed. */
module Pools {
  import opened CommitProtocol
  import opened Deltas
  import opened Integers
  import opened Lists
  import opened Snapshots

  datatype Holder = Holder(address: string, points: nat)
  datatype Pool = Pool(id: nat, amount: nat, totalPoints: nat, points: seq<Holder>)

  /** One points entry of a pool, with what the row denormalizes from the pool. */
  datatype Entry = Entry(pool: nat, address: string, points: nat, total: nat, amount: nat)
  datatype Key = Key(pool: nat, address: string)
  datatype HolderRow = HolderRow(entry: Entry, height: nat)
  datatype PoolRow = PoolRow(
    id: nat, amount: nat, totalPoints: nat, lpCount: nat,
    amountDelta: int, totalPointsDelta: int, lpCountDelta: int, height: nat)

  datatype Chain = Chain(pools: nat -> seq<Pool>) {
    ghost predicate Valid() {
      forall h :: Distinct(pools(h), PoolId) && Distinct(Entries(pools(h)), KeyOf)
    }
  }

  function PoolId(p: Pool): nat { p.id }

  function KeyOf(e: Entry): Key { Key(e.pool, e.address) }

  function RowKey(r: HolderRow): Key { KeyOf(r.entry) }

  function RowPool(r: PoolRow): nat { r.id }

  function EntriesOf(p: Pool): seq<Entry> {
    seq(|p.points|, i requires 0 <= i < |p.points| =>
      Entry(p.id, p.points[i].address, p.points[i].points, p.totalPoints, p.amount))
  }

  function Entries(pools: seq<Pool>): seq<Entry> {
    Flatten(pools, EntriesOf)
  }

  /** The holder row, if the holder is new, its points changed, or its pool is new or changed its total. */
  function HolderChange(prevHolders: map<Key, Entry>, prevPools: map<nat, Pool>, height: nat): Entry -> Option<HolderRow> {
    (e: Entry) =>
      var poolChanged := e.pool !in prevPools || e.total != prevPools[e.pool].totalPoints;
      if KeyOf(e) !in prevHolders || e.points != prevHolders[KeyOf(e)].points || poolChanged
      then Some(HolderRow(e, height)) else None
  }

  /** The number of points entries, stored in 16 bits. */
  function LPCount(p: Pool): (n: nat)
    ensures n < 65536 && (|p.points| - n) % 65536 == 0
  {
    Low16(|p.points|)
  }

  /** int16(current) - int16(previous) as Go computes it. */
  function CountDelta(current: nat, previous: nat): int {
    Signed16(Signed16(current) - Signed16(previous))
  }

  lemma CountDeltaExact(current: nat, previous: nat)
    requires current < 0x1_0000 && previous < 0x1_0000
    ensures CountDelta(current, previous) == current - previous <==> -0x8000 <= current - previous < 0x8000
  {
  }

  /** The pool row; a pool without an H-1 state has zero deltas. */
  function PoolSnapshot(prevPools: map<nat, Pool>, height: nat): Pool -> Option<PoolRow> {
    (p: Pool) =>
      if p.id in prevPools
      then Some(PoolRow(p.id, p.amount, p.totalPoints, LPCount(p), Delta(p.amount, prevPools[p.id].amount),
                        Delta(p.totalPoints, prevPools[p.id].totalPoints),
                        CountDelta(LPCount(p), LPCount(prevPools[p.id])), height))
      else Some(PoolRow(p.id, p.amount, p.totalPoints, LPCount(p), 0, 0, 0, height))
  }

  function HolderRowsAt(chain: Chain, height: nat): seq<HolderRow> {
    if height == 0 then [] else
    var prev := Previous(chain.pools, height);
    Collect(Entries(chain.pools(height)), HolderChange(MapBy(Entries(prev), KeyOf), MapBy(prev, PoolId), height))
  }

  function PoolRowsAt(chain: Chain, height: nat): seq<PoolRow> {
    if height == 0 then []
    else Collect(chain.pools(height), PoolSnapshot(MapBy(Previous(chain.pools, height), PoolId), height))
  }

  method IndexPools(chain: Chain, height: nat) returns (poolRows: seq<PoolRow>, holderRows: seq<HolderRow>)
    requires height >= 1
    ensures poolRows == PoolRowsAt(chain, height) && holderRows == HolderRowsAt(chain, height)
  {
    var prev := Previous(chain.pools, height);
    var prevPools := IndexBy(prev, PoolId);
    poolRows := CollectRows(chain.pools(height), PoolSnapshot(prevPools, height));

    var entries := CollectNested(prev, EntriesOf, Keep);
    KeepAll(Entries(prev), Keep);
    var prevHolders := IndexBy(entries, KeyOf);
    holderRows := CollectNested(chain.pools(height), EntriesOf, HolderChange(prevHolders, prevPools, height));
  }

  function Keep(e: Entry): Option<Entry> { Some(e) }

  // ---------------------------------------------------------------- holder refinement

  function HolderFeed(chain: Chain): nat -> map<Key, HolderRow> {
    (h: nat) => MapBy(HolderRowsAt(chain, h), RowKey)
  }

  function At(chain: Chain, key: Key): nat -> Option<Entry> {
    (h: nat) => if h == 0 then None else Get(MapBy(Entries(chain.pools(h)), KeyOf), key)
  }

  /** The entry of a holder: its points, with the total and the amount of its pool. */
  lemma AtListed(chain: Chain, key: Key, height: nat, e: Entry)
    requires chain.Valid() && height >= 1
    ensures At(chain, key)(height) == Some(e) <==>
              exists p, hd :: p in chain.pools(height) && hd in p.points && key == Key(p.id, hd.address)
                              && e == Entry(p.id, hd.address, hd.points, p.totalPoints, p.amount)
  {
    var es := Entries(chain.pools(height));
    MapByFinds(es, KeyOf, key);
    EntryListed(chain.pools(height), e);
    if e in es {
      DistinctFinds(es, KeyOf, e);
    }
  }

  lemma EntryListed(pools: seq<Pool>, e: Entry)
    ensures e in Entries(pools) <==>
              exists p, hd :: p in pools && hd in p.points
                              && e == Entry(p.id, hd.address, hd.points, p.totalPoints, p.amount)
  {
    FlattenIn(pools, EntriesOf, e);
    if e in Entries(pools) {
      var p :| p in pools && e in EntriesOf(p);
      var i :| 0 <= i < |p.points| && EntriesOf(p)[i] == e;
      assert p.points[i] in p.points;
    }
    if p, hd :| p in pools && hd in p.points && e == Entry(p.id, hd.address, hd.points, p.totalPoints, p.amount) {
      var i :| 0 <= i < |p.points| && p.points[i] == hd;
      assert EntriesOf(p)[i] == e;
    }
  }

  predicate SameShare(a: Option<Entry>, b: Option<Entry>) {
    a.Some? && b.Some? && a.value.points == b.value.points && a.value.total == b.value.total
  }

  ghost predicate Follows(at: nat -> Option<Entry>, row: Option<HolderRow>, height: nat)
    requires height >= 1
  {
    row == if at(height).None? || SameShare(at(height - 1), at(height)) then None
           else Some(HolderRow(at(height).value, height))
  }

  lemma EntryOfPool(pools: seq<Pool>, e: Entry)
    requires Distinct(pools, PoolId) && e in Entries(pools)
    ensures e.pool in MapBy(pools, PoolId) && MapBy(pools, PoolId)[e.pool].totalPoints == e.total
  {
    FlattenIn(pools, EntriesOf, e);
    var p :| p in pools && e in EntriesOf(p);
    DistinctFinds(pools, PoolId, p);
  }

  lemma RowWritten(chain: Chain, key: Key, height: nat)
    requires chain.Valid() && height >= 1
    ensures Follows(At(chain, key), Emitted(HolderFeed(chain), key)(height), height)
  {
    var prev, curr := Previous(chain.pools, height), chain.pools(height);
    var f := HolderChange(MapBy(Entries(prev), KeyOf), MapBy(prev, PoolId), height);
    CollectByKey(Entries(curr), f, KeyOf, RowKey, key);
    MapByFinds(Entries(curr), KeyOf, key);
    MapByFinds(Entries(prev), KeyOf, key);
    var before := Get(MapBy(Entries(prev), KeyOf), key);
    assert before == At(chain, key)(height - 1);
    if before.Some? {
      EntryOfPool(prev, before.value);
    }
  }

  ghost predicate Right(at: nat -> Option<Entry>, row: Option<HolderRow>, height: nat) {
    at(height).Some? ==>
      row.Some? && row.value.entry.points == at(height).value.points && row.value.entry.total == at(height).value.total
  }

  lemma NewestRight(at: nat -> Option<Entry>, emit: nat -> Option<HolderRow>, height: nat)
    requires at(0).None? && emit(0).None?
    requires forall h :: 1 <= h <= height ==> Follows(at, emit(h), h)
    ensures Right(at, Newest(emit, height), height)
  {
    var right := (row: Option<HolderRow>, h: nat) => Right(at, row, h);
    forall h | 1 <= h <= height && emit(h).Some? ensures right(emit(h), h) {
      assert Follows(at, emit(h), h);
    }
    forall h, o | 1 <= h <= height && emit(h).None? && right(o, h - 1) ensures right(o, h) {
      assert Follows(at, emit(h), h);
    }
    Compaction(emit, right, height);
  }

  /** For every holder present the newest row has the right points and pool total, although a
      holder's own row is not touched when only the pool total moves: that re-snapshots all holders. */
  lemma HolderRefinement(acts: seq<Action>, chain: Chain, key: Key, height: nat)
    requires chain.Valid() && Indexed(acts, height)
    ensures
      var row := Newest(Stored(After(WELL_BEHAVED, INITIAL, acts), PoolPoints, HolderFeed(chain), HolderFeed(chain), key), height);
      var at := At(chain, key)(height);
      at.Some? ==> row.Some? && row.value.entry.points == at.value.points && row.value.entry.total == at.value.total
  {
    forall h | 1 <= h <= height ensures Follows(At(chain, key), Emitted(HolderFeed(chain), key)(h), h) {
      RowWritten(chain, key, h);
    }
    assert HolderFeed(chain)(0) == map[];
    NewestRight(At(chain, key), Emitted(HolderFeed(chain), key), height);
    OrderFree(acts, PoolPoints, HolderFeed(chain), HolderFeed(chain), key, height);
  }

  /** No row is written when a holder leaves: its newest row keeps the last points, so it still looks active. */
  lemma DepartedHolderKeepsPoints(acts: seq<Action>, chain: Chain, key: Key, last: nat, height: nat)
    requires chain.Valid() && Indexed(acts, height) && 1 <= last <= height
    requires At(chain, key)(last).Some? && forall h :: last < h <= height ==> At(chain, key)(h).None?
    ensures
      var row := Newest(Stored(After(WELL_BEHAVED, INITIAL, acts), PoolPoints, HolderFeed(chain), HolderFeed(chain), key), height);
      row.Some? && row.value.entry.points == At(chain, key)(last).value.points
  {
    forall h | last < h <= height ensures Emitted(HolderFeed(chain), key)(h).None? {
      RowWritten(chain, key, h);
    }
    NewestKept(Emitted(HolderFeed(chain), key), last, height);
    HolderRefinement(acts, chain, key, last);
    OrderFree(acts, PoolPoints, HolderFeed(chain), HolderFeed(chain), key, last);
    OrderFree(acts, PoolPoints, HolderFeed(chain), HolderFeed(chain), key, height);
  }

  /** The heights at which a holder's row is written. */
  function ShareMoved(at: nat -> Option<Entry>): nat -> bool {
    (h: nat) => h >= 1 && at(h).Some? && !SameShare(at(h - 1), at(h))
  }

  /** The newest row of a present holder is its whole entry as of the last height its share moved. */
  lemma NewestHolderRow(acts: seq<Action>, chain: Chain, key: Key, height: nat)
    requires chain.Valid() && Indexed(acts, height) && At(chain, key)(height).Some?
    ensures
      var stored := Stored(After(WELL_BEHAVED, INITIAL, acts), PoolPoints, HolderFeed(chain), HolderFeed(chain), key);
      var g := LastTime(ShareMoved(At(chain, key)), height);
      && 1 <= g <= height && At(chain, key)(g).Some?
      && Newest(stored, height) == Some(HolderRow(At(chain, key)(g).value, g))
  {
    forall h: nat | 1 <= h <= height ensures Follows(At(chain, key), Emitted(HolderFeed(chain), key)(h), h) {
      RowWritten(chain, key, h);
    }
    assert HolderFeed(chain)(0) == map[];
    NewestEntry(At(chain, key), Emitted(HolderFeed(chain), key), height);
    OrderFree(acts, PoolPoints, HolderFeed(chain), HolderFeed(chain), key, height);
  }

  lemma NewestEntry(at: nat -> Option<Entry>, emit: nat -> Option<HolderRow>, height: nat)
    requires at(0).None? && emit(0).None? && at(height).Some?
    requires forall h: nat :: 1 <= h <= height ==> Follows(at, emit(h), h)
    ensures
      var g := LastTime(ShareMoved(at), height);
      1 <= g <= height && at(g).Some? && Newest(emit, height) == Some(HolderRow(at(g).value, g))
  {
    NewestRight(at, emit, height);
    forall h: nat | 1 <= h <= height ensures emit(h).Some? <==> ShareMoved(at)(h) {
      assert Follows(at, emit(h), h);
    }
    NewestIsLast(emit, ShareMoved(at), height);
    LastTimeIs(ShareMoved(at), height);
    assert Follows(at, emit(LastTime(ShareMoved(at), height)), LastTime(ShareMoved(at), height));
  }

  /** PoolAmount is copied into the row but not compared: what a reader sees of it is right exactly when the amount is
      the one the pool had when the holder's share last moved. */
  lemma PoolAmountRecoveredIff(acts: seq<Action>, chain: Chain, key: Key, height: nat)
    requires chain.Valid() && Indexed(acts, height) && At(chain, key)(height).Some?
    ensures
      var stored := Stored(After(WELL_BEHAVED, INITIAL, acts), PoolPoints, HolderFeed(chain), HolderFeed(chain), key);
      var g := LastTime(ShareMoved(At(chain, key)), height);
      && Newest(stored, height).Some? && At(chain, key)(g).Some?
      && (Newest(stored, height).value.entry.amount == At(chain, key)(height).value.amount
          <==> At(chain, key)(g).value.amount == At(chain, key)(height).value.amount)
  {
    NewestHolderRow(acts, chain, key, height);
  }

  function GrowingPoolNow(h: nat): Pool {
    Pool(1, if h <= 1 then 100 else 200, 10, [Holder("a", 10)])
  }

  function GrowingPoolAt(h: nat): seq<Pool> {
    [GrowingPoolNow(h)]
  }

  /** A pool whose amount doubles at height 2 while its one holder keeps all the points. */
  function GrowingPool(): Chain {
    Chain((h: nat) => GrowingPoolAt(h))
  }

  lemma GrowingPoolValid()
    ensures GrowingPool().Valid()
  {
    forall h: nat ensures Distinct(GrowingPoolAt(h), PoolId) && Distinct(Entries(GrowingPoolAt(h)), KeyOf) {
      OneEntry(GrowingPoolNow(h), Holder("a", 10));
    }
  }

  lemma GrowingPoolHolder(h: nat)
    requires h >= 1
    ensures At(GrowingPool(), Key(1, "a"))(h) == Some(Entry(1, "a", 10, 10, if h <= 1 then 100 else 200))
  {
    var p := GrowingPoolNow(h);
    OneEntry(p, Holder("a", 10));
    assert At(GrowingPool(), Key(1, "a"))(h) == Get(MapBy(Entries([p]), KeyOf), Key(p.id, "a"));
  }

  lemma OneEntry(p: Pool, h: Holder)
    requires p.points == [h]
    ensures
      var e := Entry(p.id, h.address, h.points, p.totalPoints, p.amount);
      Entries([p]) == [e] && MapBy(Entries([p]), KeyOf) == map[Key(p.id, h.address) := e]
  {
    var e := Entry(p.id, h.address, h.points, p.totalPoints, p.amount);
    assert EntriesOf(p) == [e];
    assert [p][..0] == [] && [e][..0] == [];
    assert Entries([p]) == Flatten([p][..0], EntriesOf) + EntriesOf(p);
    assert MapBy([e], KeyOf) == MapBy([e][..0], KeyOf)[KeyOf(e) := e];
  }

  /** There every run leaves readers of height 2 with the old amount. */
  lemma PoolAmountNotRecovered(acts: seq<Action>)
    requires Indexed(acts, 2)
    ensures
      var feed := HolderFeed(GrowingPool());
      var row := Newest(Stored(After(WELL_BEHAVED, INITIAL, acts), PoolPoints, feed, feed, Key(1, "a")), 2);
      && At(GrowingPool(), Key(1, "a"))(2) == Some(Entry(1, "a", 10, 10, 200))
      && row == Some(HolderRow(Entry(1, "a", 10, 10, 100), 1))
  {
    var at := At(GrowingPool(), Key(1, "a"));
    GrowingPoolValid();
    GrowingPoolHolder(1);
    GrowingPoolHolder(2);
    assert at(0).None?;
    assert !ShareMoved(at)(2) && ShareMoved(at)(1);
    assert LastTime(ShareMoved(at), 2) == LastTime(ShareMoved(at), 1) == 1;
    NewestHolderRow(acts, GrowingPool(), Key(1, "a"), 2);
  }

  // ---------------------------------------------------------------- pool deltas

  function PoolFeed(chain: Chain): nat -> map<nat, PoolRow> {
    (h: nat) => MapBy(PoolRowsAt(chain, h), RowPool)
  }

  function Amount(pool: Option<Pool>): nat {
    match pool case None => 0 case Some(p) => p.amount
  }

  function PoolAt(chain: Chain, id: nat): nat -> Option<Pool> {
    (h: nat) => Get(MapBy(chain.pools(h), PoolId), id)
  }

  function AmountAt(at: nat -> Option<Pool>): nat -> nat {
    (h: nat) => Amount(at(h))
  }

  function TotalAt(at: nat -> Option<Pool>): nat -> nat {
    (h: nat) => match at(h) case None => 0 case Some(p) => p.totalPoints
  }

  function StoredTotalDelta(emit: nat -> Option<PoolRow>): nat -> int {
    (h: nat) => match emit(h) case None => 0 case Some(r) => r.totalPointsDelta
  }

  function StoredAmountDelta(emit: nat -> Option<PoolRow>): nat -> int {
    (h: nat) => match emit(h) case None => 0 case Some(r) => r.amountDelta
  }

  lemma PoolListed(chain: Chain, id: nat, height: nat, p: Pool)
    requires chain.Valid()
    ensures PoolAt(chain, id)(height) == Some(p) <==> p in chain.pools(height) && p.id == id
  {
    MapByFinds(chain.pools(height), PoolId, id);
    if p in chain.pools(height) {
      DistinctFinds(chain.pools(height), PoolId, p);
    }
  }

  /** Every pool gets a row at every height, with its values and its deltas, which are zero when it is new. */
  lemma PoolRowWritten(chain: Chain, id: nat, height: nat)
    requires chain.Valid() && height >= 1
    ensures
      Emitted(PoolFeed(chain), id)(height) ==
      match (if height == 1 then None else PoolAt(chain, id)(height - 1), PoolAt(chain, id)(height))
      case (_, None) => None
      case (None, Some(p)) => Some(PoolRow(id, p.amount, p.totalPoints, LPCount(p), 0, 0, 0, height))
      case (Some(q), Some(p)) =>
        Some(PoolRow(id, p.amount, p.totalPoints, LPCount(p), Delta(p.amount, q.amount),
                     Delta(p.totalPoints, q.totalPoints), CountDelta(LPCount(p), LPCount(q)), height))
  {
    var prev := MapBy(Previous(chain.pools, height), PoolId);
    CollectByKey(chain.pools(height), PoolSnapshot(prev, height), PoolId, RowPool, id);
    MapByFinds(chain.pools(height), PoolId, id);
  }

  /** In every run, the deltas in production of a pool that exists throughout add up to its change, modulo 2^64, and
      exactly while the values stay below 2^63; for its amount and for its total points alike. */
  lemma PoolDeltasTelescope(acts: seq<Action>, chain: Chain, id: nat, a: nat, height: nat)
    requires chain.Valid() && Indexed(acts, height) && 1 <= a <= height
    requires forall h :: a <= h <= height ==> PoolAt(chain, id)(h).Some?
    ensures
      var stored := Stored(After(WELL_BEHAVED, INITIAL, acts), Entity.Pools, PoolFeed(chain), PoolFeed(chain), id);
      && Telescopes(AmountAt(PoolAt(chain, id)), StoredAmountDelta(stored), a, height)
      && Telescopes(TotalAt(PoolAt(chain, id)), StoredTotalDelta(stored), a, height)
  {
    var stored := Stored(After(WELL_BEHAVED, INITIAL, acts), Entity.Pools, PoolFeed(chain), PoolFeed(chain), id);
    var amount, amountDelta := AmountAt(PoolAt(chain, id)), StoredAmountDelta(stored);
    var total, totalDelta := TotalAt(PoolAt(chain, id)), StoredTotalDelta(stored);
    forall h | a < h <= height ensures StoresDelta(amount, amountDelta, h) && StoresDelta(total, totalDelta, h) {
      assert PoolAt(chain, id)(h - 1).Some? && PoolAt(chain, id)(h).Some?;
      PoolRowWritten(chain, id, h);
      StoredIsEmitted(acts, Entity.Pools, PoolFeed(chain), id, h);
    }
    DeltasTelescope(amount, amountDelta, a, height);
    DeltasTelescope(total, totalDelta, a, height);
  }
}
