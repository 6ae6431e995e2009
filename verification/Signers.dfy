/** The signing-info part of IndexValidators: missed-block counters and
    double-sign evidence, with a reset row when an address leaves the list. */
module Signers {
  import opened CommitProtocol
  import opened Lists
  import opened Snapshots

  datatype NonSigner = NonSigner(address: string, counter: nat)
  datatype NonSigningRow = NonSigningRow(address: string, missedBlocks: nat, lastSignedHeight: nat)

  datatype DoubleSigner = DoubleSigner(address: string, heights: seq<nat>)
  datatype DoubleSigningRow = DoubleSigningRow(address: string, evidence: nat, first: nat, last: nat, height: nat)

  datatype Chain = Chain(nonSigners: nat -> seq<NonSigner>, doubleSigners: nat -> seq<DoubleSigner>) {
    ghost predicate Valid() {
      forall h :: Distinct(nonSigners(h), NonSignerKey) && Distinct(doubleSigners(h), DoubleSignerKey)
    }
  }

  function NonSignerKey(n: NonSigner): string { n.address }

  function NonSigningRowKey(r: NonSigningRow): string { r.address }

  function DoubleSignerKey(d: DoubleSigner): string { d.address }

  function DoubleSigningRowKey(r: DoubleSigningRow): string { r.address }

  function NonSignerChange(prev: map<string, NonSigner>, height: nat): NonSigner -> Option<NonSigningRow> {
    (c: NonSigner) =>
      if c.address !in prev || c.counter != prev[c.address].counter
      then Some(NonSigningRow(c.address, c.counter, height)) else None
  }

  function NonSignerReset(curr: map<string, NonSigner>, height: nat): NonSigner -> Option<NonSigningRow> {
    (p: NonSigner) => if p.address !in curr then Some(NonSigningRow(p.address, 0, height)) else None
  }

  /** Evidence is compared by count, an address without evidence counting zero. */
  function DoubleSignerChange(prev: map<string, DoubleSigner>, height: nat): DoubleSigner -> Option<DoubleSigningRow> {
    (c: DoubleSigner) =>
      var before := if c.address in prev then |prev[c.address].heights| else 0;
      var n := |c.heights|;
      if n == before then None
      else if n == 0 then Some(DoubleSigningRow(c.address, 0, 0, 0, height))
      else Some(DoubleSigningRow(c.address, n, c.heights[0], c.heights[n - 1], height))
  }

  function DoubleSignerReset(curr: map<string, DoubleSigner>, height: nat): DoubleSigner -> Option<DoubleSigningRow> {
    (p: DoubleSigner) => if p.address !in curr then Some(DoubleSigningRow(p.address, 0, 0, 0, height)) else None
  }

  function NonSigningRowsAt(chain: Chain, height: nat): seq<NonSigningRow> {
    if height == 0 then [] else
    var prev, curr := Previous(chain.nonSigners, height), chain.nonSigners(height);
    Collect(curr, NonSignerChange(MapBy(prev, NonSignerKey), height))
    + Collect(prev, NonSignerReset(MapBy(curr, NonSignerKey), height))
  }

  function DoubleSigningRowsAt(chain: Chain, height: nat): seq<DoubleSigningRow> {
    if height == 0 then [] else
    var prev, curr := Previous(chain.doubleSigners, height), chain.doubleSigners(height);
    Collect(curr, DoubleSignerChange(MapBy(prev, DoubleSignerKey), height))
    + Collect(prev, DoubleSignerReset(MapBy(curr, DoubleSignerKey), height))
  }

  method IndexNonSigners(chain: Chain, height: nat) returns (rows: seq<NonSigningRow>)
    requires height >= 1
    ensures rows == NonSigningRowsAt(chain, height)
  {
    var prev := IndexBy(Previous(chain.nonSigners, height), NonSignerKey);
    var curr := IndexBy(chain.nonSigners(height), NonSignerKey);
    var changed := CollectRows(chain.nonSigners(height), NonSignerChange(prev, height));
    var resets := CollectRows(Previous(chain.nonSigners, height), NonSignerReset(curr, height));
    rows := changed + resets;
  }

  method IndexDoubleSigners(chain: Chain, height: nat) returns (rows: seq<DoubleSigningRow>)
    requires height >= 1
    ensures rows == DoubleSigningRowsAt(chain, height)
  {
    var prev := IndexBy(Previous(chain.doubleSigners, height), DoubleSignerKey);
    var curr := IndexBy(chain.doubleSigners(height), DoubleSignerKey);
    var changed := CollectRows(chain.doubleSigners(height), DoubleSignerChange(prev, height));
    var resets := CollectRows(Previous(chain.doubleSigners, height), DoubleSignerReset(curr, height));
    rows := changed + resets;
  }

  // ---------------------------------------------------------------- refinement

  function CountOf<R>(row: Option<R>, count: R -> nat): nat {
    match row case None => 0 case Some(r) => count(r)
  }

  /** A written row has the current count, and the count has not moved when none is written. */
  ghost predicate Follows<R>(value: nat -> nat, count: R -> nat, row: Option<R>, height: nat)
    requires height >= 1
  {
    if row.Some? then count(row.value) == value(height) else value(height) == value(height - 1)
  }

  lemma NewestCount<R(!new)>(value: nat -> nat, count: R -> nat, emit: nat -> Option<R>, height: nat)
    requires value(0) == 0 && emit(0).None?
    requires forall h :: 1 <= h <= height ==> Follows(value, count, emit(h), h)
    ensures CountOf(Newest(emit, height), count) == value(height)
  {
    var right := (row: Option<R>, h: nat) => CountOf(row, count) == value(h);
    forall h | 1 <= h <= height && emit(h).Some? ensures right(emit(h), h) {
      assert Follows(value, count, emit(h), h);
    }
    forall h, o | 1 <= h <= height && emit(h).None? && right(o, h - 1) ensures right(o, h) {
      assert Follows(value, count, emit(h), h);
    }
    Compaction(emit, right, height);
  }

  function MissedBlocks(r: NonSigningRow): nat { r.missedBlocks }

  function Counter(n: Option<NonSigner>): nat {
    match n case None => 0 case Some(s) => s.counter
  }

  /** The non-signer counter of an address, 0 when it is not listed. */
  function MissedAt(chain: Chain, address: string, height: nat): nat {
    if height == 0 then 0 else Counter(Get(MapBy(chain.nonSigners(height), NonSignerKey), address))
  }

  function Missed(chain: Chain, address: string): nat -> nat {
    (h: nat) => MissedAt(chain, address, h)
  }

  function NonSigningFeed(chain: Chain): nat -> map<string, NonSigningRow> {
    (h: nat) => MapBy(NonSigningRowsAt(chain, h), NonSigningRowKey)
  }

  /** The address is new in the list or has left it, or its counter moved. */
  predicate CounterMoved(before: Option<NonSigner>, now: Option<NonSigner>) {
    before.Some? != now.Some? || Counter(before) != Counter(now)
  }

  function NonSignerAt(chain: Chain, address: string): nat -> Option<NonSigner> {
    (h: nat) => if h == 0 then None else Get(MapBy(chain.nonSigners(h), NonSignerKey), address)
  }

  lemma NonSignerListed(chain: Chain, address: string, height: nat, n: NonSigner)
    requires chain.Valid() && height >= 1
    ensures NonSignerAt(chain, address)(height) == Some(n) <==> n in chain.nonSigners(height) && n.address == address
    ensures n in chain.nonSigners(height) && n.address == address ==> MissedAt(chain, address, height) == n.counter
    ensures (forall m :: m in chain.nonSigners(height) ==> m.address != address) ==> MissedAt(chain, address, height) == 0
  {
    MapByFinds(chain.nonSigners(height), NonSignerKey, address);
    if n in chain.nonSigners(height) {
      DistinctFinds(chain.nonSigners(height), NonSignerKey, n);
    }
  }

  /** In terms of the two lookup maps: the row has the current counter, and the counter has not moved without one. */
  lemma CounterFollows(pm: map<string, NonSigner>, cm: map<string, NonSigner>, address: string, row: Option<NonSigningRow>, height: nat)
    requires address in pm ==> pm[address].address == address
    requires address in cm ==> cm[address].address == address
    requires
      var reset := Then(Get(pm, address), NonSignerReset(cm, height));
      row == if reset.Some? then reset else Then(Get(cm, address), NonSignerChange(pm, height))
    ensures row.Some? <==> CounterMoved(Get(pm, address), Get(cm, address))
    ensures
      if row.Some? then row.value == NonSigningRow(address, Counter(Get(cm, address)), height)
      else Counter(Get(cm, address)) == Counter(Get(pm, address))
  {
  }

  lemma NonSigningRowWritten(chain: Chain, address: string, height: nat)
    requires chain.Valid() && height >= 1
    ensures Follows(Missed(chain, address), MissedBlocks, Emitted(NonSigningFeed(chain), address)(height), height)
    ensures
      var row := Emitted(NonSigningFeed(chain), address)(height);
      && (row.Some? <==> CounterMoved(NonSignerAt(chain, address)(height - 1), NonSignerAt(chain, address)(height)))
      && (row.Some? ==> row.value == NonSigningRow(address, MissedAt(chain, address, height), height))
  {
    var prev, curr := Previous(chain.nonSigners, height), chain.nonSigners(height);
    var pm, cm := MapBy(prev, NonSignerKey), MapBy(curr, NonSignerKey);
    TwoPasses(curr, NonSignerChange(pm, height), prev, NonSignerReset(cm, height), NonSignerKey, NonSigningRowKey, address);
    MapByFinds(curr, NonSignerKey, address);
    MapByFinds(prev, NonSignerKey, address);
    CounterFollows(pm, cm, address, Emitted(NonSigningFeed(chain), address)(height), height);
    assert Get(pm, address) == NonSignerAt(chain, address)(height - 1);
    assert Counter(Get(pm, address)) == MissedAt(chain, address, height - 1);
  }

  /** Whatever the order of indexing, the newest row (0 if none) is the missed-block counter of every address, listed or not. */
  lemma NonSignerRefinement(acts: seq<Action>, chain: Chain, address: string, height: nat)
    requires chain.Valid() && Indexed(acts, height)
    ensures
      CountOf(Newest(Stored(After(WELL_BEHAVED, INITIAL, acts), NonSigning, NonSigningFeed(chain), NonSigningFeed(chain), address), height),
              MissedBlocks)
      == MissedAt(chain, address, height)
  {
    forall h | 1 <= h <= height
      ensures Follows(Missed(chain, address), MissedBlocks, Emitted(NonSigningFeed(chain), address)(h), h)
    {
      NonSigningRowWritten(chain, address, h);
    }
    assert NonSigningFeed(chain)(0) == map[];
    NewestCount(Missed(chain, address), MissedBlocks, Emitted(NonSigningFeed(chain), address), height);
    OrderFree(acts, NonSigning, NonSigningFeed(chain), NonSigningFeed(chain), address, height);
  }

  function EvidenceCount(r: DoubleSigningRow): nat { r.evidence }

  function HeightCount(d: Option<DoubleSigner>): nat {
    match d case None => 0 case Some(s) => |s.heights|
  }

  /** The number of evidence heights of an address, 0 when it is not listed. */
  function EvidenceAt(chain: Chain, address: string, height: nat): nat {
    if height == 0 then 0 else HeightCount(Get(MapBy(chain.doubleSigners(height), DoubleSignerKey), address))
  }

  function Evidence(chain: Chain, address: string): nat -> nat {
    (h: nat) => EvidenceAt(chain, address, h)
  }

  function DoubleSigningFeed(chain: Chain): nat -> map<string, DoubleSigningRow> {
    (h: nat) => MapBy(DoubleSigningRowsAt(chain, h), DoubleSigningRowKey)
  }

  /** The row that describes what is listed for an address: its evidence count with the first and last
      evidence height, all zero when there is none. */
  function EvidenceRow(address: string, listed: Option<DoubleSigner>, height: nat): DoubleSigningRow {
    if HeightCount(listed) == 0 then DoubleSigningRow(address, 0, 0, 0, height)
    else
      var hs := listed.value.heights;
      DoubleSigningRow(address, |hs|, hs[0], hs[|hs| - 1], height)
  }

  /** The count moved, or the address left the list, be it without evidence. */
  predicate EvidenceMoved(before: Option<DoubleSigner>, now: Option<DoubleSigner>) {
    HeightCount(before) != HeightCount(now) || (before.Some? && now.None?)
  }

  function Listed(chain: Chain, address: string): nat -> Option<DoubleSigner> {
    (h: nat) => if h == 0 then None else Get(MapBy(chain.doubleSigners(h), DoubleSignerKey), address)
  }

  lemma ListedMeans(chain: Chain, address: string, height: nat, d: DoubleSigner)
    requires chain.Valid() && height >= 1
    ensures Listed(chain, address)(height) == Some(d) <==> d in chain.doubleSigners(height) && d.address == address
  {
    MapByFinds(chain.doubleSigners(height), DoubleSignerKey, address);
    if d in chain.doubleSigners(height) {
      DistinctFinds(chain.doubleSigners(height), DoubleSignerKey, d);
    }
  }

  /** The heights at which an address gets a row. */
  function Moves(listed: nat -> Option<DoubleSigner>): nat -> bool {
    (h: nat) => MovesAt(listed, h)
  }

  predicate MovesAt(listed: nat -> Option<DoubleSigner>, h: nat) {
    h >= 1 && EvidenceMoved(listed(h - 1), listed(h))
  }

  lemma EvidenceFollows(pm: map<string, DoubleSigner>, cm: map<string, DoubleSigner>, address: string, row: Option<DoubleSigningRow>, height: nat)
    requires address in pm ==> pm[address].address == address
    requires address in cm ==> cm[address].address == address
    requires
      var reset := Then(Get(pm, address), DoubleSignerReset(cm, height));
      row == if reset.Some? then reset else Then(Get(cm, address), DoubleSignerChange(pm, height))
    ensures row.Some? <==> EvidenceMoved(Get(pm, address), Get(cm, address))
    ensures
      if row.Some? then row.value == EvidenceRow(address, Get(cm, address), height)
      else HeightCount(Get(cm, address)) == HeightCount(Get(pm, address))
  {
  }

  /** The row of an address, by which of the two passes produces it. */
  lemma DoubleSigningPasses(chain: Chain, address: string, height: nat)
    requires chain.Valid() && height >= 1
    ensures
      var before, now := Listed(chain, address)(height - 1), Listed(chain, address)(height);
      var pm := MapBy(Previous(chain.doubleSigners, height), DoubleSignerKey);
      var cm := MapBy(chain.doubleSigners(height), DoubleSignerKey);
      var reset := Then(before, DoubleSignerReset(cm, height));
      && before == Get(pm, address) && now == Get(cm, address)
      && (before.Some? ==> before.value.address == address) && (now.Some? ==> now.value.address == address)
      && Emitted(DoubleSigningFeed(chain), address)(height)
         == if reset.Some? then reset else Then(now, DoubleSignerChange(pm, height))
  {
    var prev, curr := Previous(chain.doubleSigners, height), chain.doubleSigners(height);
    var pm, cm := MapBy(prev, DoubleSignerKey), MapBy(curr, DoubleSignerKey);
    TwoPasses(curr, DoubleSignerChange(pm, height), prev, DoubleSignerReset(cm, height),
              DoubleSignerKey, DoubleSigningRowKey, address);
    MapByFinds(curr, DoubleSignerKey, address);
    MapByFinds(prev, DoubleSignerKey, address);
  }

  lemma DoubleSigningRowWritten(chain: Chain, address: string, height: nat)
    requires chain.Valid() && height >= 1
    ensures Follows(Evidence(chain, address), EvidenceCount, Emitted(DoubleSigningFeed(chain), address)(height), height)
    ensures
      var row := Emitted(DoubleSigningFeed(chain), address)(height);
      && (row.Some? <==> EvidenceMoved(Listed(chain, address)(height - 1), Listed(chain, address)(height)))
      && (row.Some? ==> row.value == EvidenceRow(address, Listed(chain, address)(height), height))
  {
    DoubleSigningPasses(chain, address, height);
    EvidenceFollows(MapBy(Previous(chain.doubleSigners, height), DoubleSignerKey),
                    MapBy(chain.doubleSigners(height), DoubleSignerKey), address,
                    Emitted(DoubleSigningFeed(chain), address)(height), height);
    assert HeightCount(Listed(chain, address)(height)) == EvidenceAt(chain, address, height);
    assert HeightCount(Listed(chain, address)(height - 1)) == EvidenceAt(chain, address, height - 1);
  }

  /** Likewise the newest evidence count equals the length of the evidence list of every address. */
  lemma DoubleSignerRefinement(acts: seq<Action>, chain: Chain, address: string, height: nat)
    requires chain.Valid() && Indexed(acts, height)
    ensures
      CountOf(Newest(Stored(After(WELL_BEHAVED, INITIAL, acts), DoubleSigning, DoubleSigningFeed(chain), DoubleSigningFeed(chain), address), height),
              EvidenceCount)
      == EvidenceAt(chain, address, height)
  {
    forall h | 1 <= h <= height
      ensures Follows(Evidence(chain, address), EvidenceCount, Emitted(DoubleSigningFeed(chain), address)(h), h)
    {
      DoubleSigningRowWritten(chain, address, h);
    }
    assert DoubleSigningFeed(chain)(0) == map[];
    NewestCount(Evidence(chain, address), EvidenceCount, Emitted(DoubleSigningFeed(chain), address), height);
    OrderFree(acts, DoubleSigning, DoubleSigningFeed(chain), DoubleSigningFeed(chain), address, height);
  }

  // ---------------------------------------------------------------- first and last evidence height

  /** The newest row describes the list as of the last height its count moved, or the address left it. */
  lemma NewestEvidence(acts: seq<Action>, chain: Chain, address: string, height: nat)
    requires chain.Valid() && Indexed(acts, height)
    ensures
      var feed, listed := DoubleSigningFeed(chain), Listed(chain, address);
      var g := LastTime(Moves(listed), height);
      && g <= height
      && Newest(Stored(After(WELL_BEHAVED, INITIAL, acts), DoubleSigning, feed, feed, address), height)
         == if g == 0 then None else Some(EvidenceRow(address, listed(g), g))
  {
    var listed, emit := Listed(chain, address), Emitted(DoubleSigningFeed(chain), address);
    forall h: nat | 1 <= h <= height
      ensures emit(h) == if Moves(listed)(h) then Some(EvidenceRow(address, listed(h), h)) else None
    {
      DoubleSigningRowWritten(chain, address, h);
    }
    assert DoubleSigningFeed(chain)(0) == map[];
    NewestIsLast(emit, Moves(listed), height);
    LastTimeIs(Moves(listed), height);
    OrderFree(acts, DoubleSigning, DoubleSigningFeed(chain), DoubleSigningFeed(chain), address, height);
  }

  /** First and last evidence height, 0 without evidence. */
  datatype Bounds = Bounds(first: nat, last: nat)

  function BoundsOf(listed: Option<DoubleSigner>): Bounds {
    if HeightCount(listed) == 0 then Bounds(0, 0)
    else Bounds(listed.value.heights[0], listed.value.heights[|listed.value.heights| - 1])
  }

  function BoundsRead(row: Option<DoubleSigningRow>): Bounds {
    match row case None => Bounds(0, 0) case Some(r) => Bounds(r.first, r.last)
  }

  /** Evidence is compared by count: the first and last height read are right exactly when they are those the list had
      when the newest row was written. */
  lemma BoundsRecoveredIff(acts: seq<Action>, chain: Chain, address: string, height: nat)
    requires chain.Valid() && Indexed(acts, height)
    ensures
      var feed, listed := DoubleSigningFeed(chain), Listed(chain, address);
      BoundsRead(Newest(Stored(After(WELL_BEHAVED, INITIAL, acts), DoubleSigning, feed, feed, address), height))
      == BoundsOf(listed(height))
      <==> BoundsOf(listed(LastTime(Moves(listed), height))) == BoundsOf(listed(height))
  {
    NewestEvidence(acts, chain, address, height);
  }

  function ShiftingListAt(h: nat): seq<DoubleSigner> {
    [DoubleSigner("a", [if h <= 1 then 5 else 7])]
  }

  /** One piece of evidence, at height 5, is replaced by one at height 7. */
  function ShiftingList(): Chain {
    Chain((h: nat) => [], (h: nat) => ShiftingListAt(h))
  }

  lemma ShiftingListed(h: nat)
    requires h >= 1
    ensures ShiftingList().Valid()
    ensures Listed(ShiftingList(), "a")(h) == Some(DoubleSigner("a", [if h <= 1 then 5 else 7]))
  {
    assert ShiftingListAt(h)[..0] == [];
  }

  /** There every run leaves readers of height 2 with the old evidence height. */
  lemma BoundsNotRecovered(acts: seq<Action>)
    requires Indexed(acts, 2)
    ensures
      var feed := DoubleSigningFeed(ShiftingList());
      && BoundsOf(Listed(ShiftingList(), "a")(2)) == Bounds(7, 7)
      && BoundsRead(Newest(Stored(After(WELL_BEHAVED, INITIAL, acts), DoubleSigning, feed, feed, "a"), 2)) == Bounds(5, 5)
  {
    var listed := Listed(ShiftingList(), "a");
    ShiftingListed(1);
    ShiftingListed(2);
    assert Moves(listed)(1) && !Moves(listed)(2);
    assert LastTime(Moves(listed), 2) == LastTime(Moves(listed), 1) == 1;
    NewestEvidence(acts, ShiftingList(), "a", 2);
  }
}
