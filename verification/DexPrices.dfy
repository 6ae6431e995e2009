/** IndexDexPrices: price rows with H-1 deltas, written only when a price or a pool side changed. */
module DexPrices {
  import opened CommitProtocol
  import opened Deltas
  import opened Integers
  import opened Lists
  import opened Snapshots

  datatype Quote = Quote(price: nat, localPool: nat, remotePool: nat)
  datatype Price = Price(localChain: nat, remoteChain: nat, quote: Quote)
  datatype Pair = Pair(localChain: nat, remoteChain: nat)
  datatype Row = Row(pair: Pair, quote: Quote, priceDelta: int, localPoolDelta: int, remotePoolDelta: int, height: nat)

  datatype Chain = Chain(prices: nat -> seq<Price>) {
    ghost predicate Valid() {
      forall h :: Distinct(prices(h), PairOf)
    }
  }

  /** Chain ids are stored as uint16. */
  function PairOf(p: Price): Pair { Pair(Low16(p.localChain), Low16(p.remoteChain)) }

  function RowPair(r: Row): Pair { r.pair }

  function Change(prev: map<Pair, Price>, height: nat): Price -> Option<Row> {
    (c: Price) =>
      var pair := PairOf(c);
      if pair in prev then
        var before := prev[pair].quote;
        if c.quote == before then None
        else Some(Row(pair, c.quote, Delta(c.quote.price, before.price), Delta(c.quote.localPool, before.localPool),
                      Delta(c.quote.remotePool, before.remotePool), height))
      else Some(Row(pair, c.quote, 0, 0, 0, height))
  }

  function RowsAt(chain: Chain, height: nat): seq<Row> {
    if height == 0 then []
    else Collect(chain.prices(height), Change(MapBy(Previous(chain.prices, height), PairOf), height))
  }

  method IndexDexPrices(chain: Chain, height: nat) returns (rows: seq<Row>)
    requires height >= 1
    ensures rows == RowsAt(chain, height)
  {
    var prev := IndexBy(Previous(chain.prices, height), PairOf);
    rows := CollectRows(chain.prices(height), Change(prev, height));
  }

  // ---------------------------------------------------------------- refinement

  function Feed(chain: Chain): nat -> map<Pair, Row> {
    (h: nat) => MapBy(RowsAt(chain, h), RowPair)
  }

  function At(chain: Chain, pair: Pair): nat -> Option<Quote> {
    (h: nat) =>
      if h == 0 then None else
      match Get(MapBy(chain.prices(h), PairOf), pair) case None => None case Some(p) => Some(p.quote)
  }

  /** The quote a list has for a pair: chain ids are cut to 16 bits. */
  lemma AtListed(chain: Chain, pair: Pair, height: nat, q: Quote)
    requires chain.Valid() && height >= 1
    ensures At(chain, pair)(height) == Some(q) <==>
              exists p :: p in chain.prices(height) && p.quote == q
                          && pair == Pair(p.localChain % 65536, p.remoteChain % 65536)
  {
    MapByFinds(chain.prices(height), PairOf, pair);
    if p :| p in chain.prices(height) && p.quote == q && pair == Pair(p.localChain % 65536, p.remoteChain % 65536) {
      DistinctFinds(chain.prices(height), PairOf, p);
    }
  }

  ghost predicate Follows(pair: Pair, at: nat -> Option<Quote>, row: Option<Row>, height: nat)
    requires height >= 1
  {
    match (at(height - 1), at(height))
    case (_, None) => row.None?
    case (None, Some(q)) => row == Some(Row(pair, q, 0, 0, 0, height))
    case (Some(p), Some(q)) =>
      row == if p == q then None
             else Some(Row(pair, q, Delta(q.price, p.price), Delta(q.localPool, p.localPool),
                           Delta(q.remotePool, p.remotePool), height))
  }

  lemma RowWritten(chain: Chain, pair: Pair, height: nat)
    requires chain.Valid() && height >= 1
    ensures Follows(pair, At(chain, pair), Emitted(Feed(chain), pair)(height), height)
  {
    var prev := MapBy(Previous(chain.prices, height), PairOf);
    CollectByKey(chain.prices(height), Change(prev, height), PairOf, RowPair, pair);
    MapByFinds(chain.prices(height), PairOf, pair);
    assert (if pair in prev then Some(prev[pair].quote) else None) == At(chain, pair)(height - 1);
  }

  lemma NewestRight(pair: Pair, at: nat -> Option<Quote>, emit: nat -> Option<Row>, height: nat)
    requires at(0).None? && emit(0).None?
    requires forall h :: 1 <= h <= height ==> Follows(pair, at, emit(h), h)
    ensures at(height).Some? ==> Newest(emit, height).Some? && Newest(emit, height).value.quote == at(height).value
  {
    var right := (row: Option<Row>, h: nat) => at(h).Some? ==> row.Some? && row.value.quote == at(h).value;
    forall h | 1 <= h <= height && emit(h).Some? ensures right(emit(h), h) {
      assert Follows(pair, at, emit(h), h);
    }
    forall h, o | 1 <= h <= height && emit(h).None? && right(o, h - 1) ensures right(o, h) {
      assert Follows(pair, at, emit(h), h);
    }
    Compaction(emit, right, height);
  }

  /** For every pair quoted at height the newest row has its price and both pool sides. */
  lemma PriceRefinement(acts: seq<Action>, chain: Chain, pair: Pair, height: nat)
    requires chain.Valid() && Indexed(acts, height)
    ensures
      var row := Newest(Stored(After(WELL_BEHAVED, INITIAL, acts), Entity.DexPrices, Feed(chain), Feed(chain), pair), height);
      At(chain, pair)(height).Some? ==> row.Some? && row.value.quote == At(chain, pair)(height).value
  {
    forall h | 1 <= h <= height ensures Follows(pair, At(chain, pair), Emitted(Feed(chain), pair)(h), h) {
      RowWritten(chain, pair, h);
    }
    assert Feed(chain)(0) == map[];
    NewestRight(pair, At(chain, pair), Emitted(Feed(chain), pair), height);
    OrderFree(acts, Entity.DexPrices, Feed(chain), Feed(chain), pair, height);
  }

  function PriceAt(at: nat -> Option<Quote>): nat -> nat {
    (h: nat) => match at(h) case None => 0 case Some(q) => q.price
  }

  function LocalPoolAt(at: nat -> Option<Quote>): nat -> nat {
    (h: nat) => match at(h) case None => 0 case Some(q) => q.localPool
  }

  function RemotePoolAt(at: nat -> Option<Quote>): nat -> nat {
    (h: nat) => match at(h) case None => 0 case Some(q) => q.remotePool
  }

  function PriceDelta(emit: nat -> Option<Row>): nat -> int {
    (h: nat) => match emit(h) case None => 0 case Some(r) => r.priceDelta
  }

  function LocalPoolDelta(emit: nat -> Option<Row>): nat -> int {
    (h: nat) => match emit(h) case None => 0 case Some(r) => r.localPoolDelta
  }

  function RemotePoolDelta(emit: nat -> Option<Row>): nat -> int {
    (h: nat) => match emit(h) case None => 0 case Some(r) => r.remotePoolDelta
  }

  /** Rows that follow the change filter have deltas that add up. */
  lemma DeltasAddUp(pair: Pair, at: nat -> Option<Quote>, emit: nat -> Option<Row>, a: nat, height: nat)
    requires 1 <= a <= height
    requires forall h :: a <= h <= height ==> at(h).Some?
    requires forall h :: a < h <= height ==> Follows(pair, at, emit(h), h)
    ensures Telescopes(PriceAt(at), PriceDelta(emit), a, height)
    ensures Telescopes(LocalPoolAt(at), LocalPoolDelta(emit), a, height)
    ensures Telescopes(RemotePoolAt(at), RemotePoolDelta(emit), a, height)
  {
    forall h | a < h <= height
      ensures StoresDelta(PriceAt(at), PriceDelta(emit), h) && StoresDelta(LocalPoolAt(at), LocalPoolDelta(emit), h)
      ensures StoresDelta(RemotePoolAt(at), RemotePoolDelta(emit), h)
    {
      assert Follows(pair, at, emit(h), h);
      assert at(h - 1).Some? && at(h).Some?;
    }
    DeltasTelescope(PriceAt(at), PriceDelta(emit), a, height);
    DeltasTelescope(LocalPoolAt(at), LocalPoolDelta(emit), a, height);
    DeltasTelescope(RemotePoolAt(at), RemotePoolDelta(emit), a, height);
  }

  /** In every run, while a pair is quoted without a break the deltas in production of its price and of both pool sides
      add up to the differences, modulo 2^64, although unchanged heights store no row; and exactly below 2^63. */
  lemma PriceDeltasTelescope(acts: seq<Action>, chain: Chain, pair: Pair, a: nat, height: nat)
    requires chain.Valid() && Indexed(acts, height) && 1 <= a <= height
    requires forall h :: a <= h <= height ==> At(chain, pair)(h).Some?
    ensures
      var at := At(chain, pair);
      var stored := Stored(After(WELL_BEHAVED, INITIAL, acts), Entity.DexPrices, Feed(chain), Feed(chain), pair);
      && Telescopes(PriceAt(at), PriceDelta(stored), a, height)
      && Telescopes(LocalPoolAt(at), LocalPoolDelta(stored), a, height)
      && Telescopes(RemotePoolAt(at), RemotePoolDelta(stored), a, height)
  {
    var stored := Stored(After(WELL_BEHAVED, INITIAL, acts), Entity.DexPrices, Feed(chain), Feed(chain), pair);
    forall h | a < h <= height ensures Follows(pair, At(chain, pair), stored(h), h) {
      RowWritten(chain, pair, h);
      StoredIsEmitted(acts, Entity.DexPrices, Feed(chain), pair, h);
    }
    DeltasAddUp(pair, At(chain, pair), stored, a, height);
  }
}
