/** IndexDexBatch: rows of DEX orders, deposits and withdrawals as they move from
    the next batch (pending) to the current batch (locked) to completion. The three
    kinds go to three tables and never meet: a Chain is the life of one kind. */
module DexBatch {
  import opened CommitProtocol
  import opened Integers
  import opened Lists
  import opened Snapshots

  datatype Payload =
    | Order(amountForSale: nat, requestedAmount: nat)
    | Deposit(amount: nat)
    | Withdrawal(percent: nat)

  datatype Outcome =
    | Swapped(success: bool, sold: nat, bought: nat, localOrigin: bool)
    | Deposited(points: nat, localOrigin: bool)
    | Withdrawn(localAmount: nat, remoteAmount: nat, pointsBurned: nat)

  datatype Item = Item(id: string, address: string, payload: Payload)

  /** The items of one kind in a batch; only orders carry the batch's locked height. */
  datatype Batch = Batch(committee: nat, lockedHeight: Option<nat>, items: seq<Item>)
  datatype Event = Event(id: string, outcome: Outcome)

  datatype Stage = Pending | Locked | Complete
  datatype Placed = Placed(item: Item, committee: nat, lockedHeight: Option<nat>)
  datatype Row = Row(
    item: Item, committee: nat, lockedHeight: Option<nat>, stage: Stage, outcome: Option<Outcome>, height: nat)

  datatype Counters = Counters(pending: nat, locked: nat, complete: nat)

  datatype Kind = OfOrders | OfDeposits | OfWithdrawals

  type OrderItem = i: Item | i.payload.Order? witness Item("", "", Order(0, 0))
  type DepositItem = i: Item | i.payload.Deposit? witness Item("", "", Deposit(0))
  type WithdrawalItem = i: Item | i.payload.Withdrawal? witness Item("", "", Withdrawal(0))

  /** A batch as the RPC returns it, with the three lists side by side. */
  datatype FullBatch = FullBatch(
    committee: nat, lockedHeight: nat,
    orders: seq<OrderItem>, deposits: seq<DepositItem>, withdrawals: seq<WithdrawalItem>)

  datatype FullChain = FullChain(current: nat -> seq<FullBatch>, next: nat -> seq<FullBatch>, events: nat -> seq<Event>)

  function KindOf(o: Outcome): Kind {
    match o case Swapped(_, _, _, _) => OfOrders case Deposited(_, _) => OfDeposits case Withdrawn(_, _, _) => OfWithdrawals
  }

  function OnlyBatch(b: FullBatch, kind: Kind): Batch {
    match kind
    case OfOrders => Batch(b.committee, Some(b.lockedHeight), b.orders)
    case OfDeposits => Batch(b.committee, None, b.deposits)
    case OfWithdrawals => Batch(b.committee, None, b.withdrawals)
  }

  function OnlyBatches(bs: seq<FullBatch>, kind: Kind): seq<Batch> {
    seq(|bs|, i requires 0 <= i < |bs| => OnlyBatch(bs[i], kind))
  }

  function OnlyEvent(kind: Kind): Event -> Option<Event> {
    (e: Event) => if KindOf(e.outcome) == kind then Some(e) else None
  }

  /** The life of one kind. */
  function Only(full: FullChain, kind: Kind): Chain {
    Chain((h: nat) => OnlyBatches(full.current(h), kind), (h: nat) => OnlyBatches(full.next(h), kind),
          (h: nat) => Collect(full.events(h), OnlyEvent(kind)))
  }

  datatype Chain = Chain(current: nat -> seq<Batch>, next: nat -> seq<Batch>, events: nat -> seq<Event>) {
    /** An id is in at most one place per height, and leaves both batches when its completion event fires. */
    ghost predicate Valid() {
      forall h: nat ::
        && Distinct(Flat(current(h)), PlacedId) && Distinct(Flat(next(h)), PlacedId)
        && (forall id :: id in ById(current(h)) ==> id !in ById(next(h)))
        && (forall id :: h >= 2 && id in OutcomesAt(this, h) && id in ById(current(h - 1)) ==>
              id !in ById(current(h)) && id !in ById(next(h)))
    }
  }

  function PlacedId(p: Placed): string { p.item.id }

  function RowId(r: Row): string { r.item.id }

  function EventId(e: Event): string { e.id }

  function ItemsOf(b: Batch): seq<Placed> {
    seq(|b.items|, i requires 0 <= i < |b.items| => Placed(b.items[i], b.committee, b.lockedHeight))
  }

  function Flat(batches: seq<Batch>): seq<Placed> {
    Flatten(batches, ItemsOf)
  }

  function ById(batches: seq<Batch>): map<string, Placed> {
    MapBy(Flat(batches), PlacedId)
  }

  /** Events with an empty order id are skipped. */
  function Named(e: Event): Option<Event> {
    if e.id == "" then None else Some(e)
  }

  function OutcomesAt(chain: Chain, height: nat): map<string, Event> {
    MapBy(Collect(chain.events(height), Named), EventId)
  }

  /** A pending order has locked height 0. */
  function NotYet(lockedHeight: Option<nat>): Option<nat> {
    if lockedHeight.Some? then Some(0) else None
  }

  function CompleteRow(outcomes: map<string, Event>, height: nat): Placed -> Option<Row> {
    (p: Placed) =>
      if p.item.id in outcomes
      then Some(Row(p.item, Low16(p.committee), p.lockedHeight, Complete, Some(outcomes[p.item.id].outcome), height))
      else None
  }

  function LockedRow(prevLocked: map<string, Placed>, height: nat): Placed -> Option<Row> {
    (p: Placed) =>
      if p.item.id in prevLocked && prevLocked[p.item.id].item == p.item then None
      else Some(Row(p.item, Low16(p.committee), p.lockedHeight, Locked, None, height))
  }

  function PendingRow(prevPending: map<string, Placed>, height: nat): Placed -> Option<Row> {
    (p: Placed) =>
      if p.item.id in prevPending && prevPending[p.item.id].item == p.item then None
      else Some(Row(p.item, Low16(p.committee), NotYet(p.lockedHeight), Pending, None, height))
  }

  function CompleteRowsAt(chain: Chain, height: nat): seq<Row> {
    Collect(Flat(Previous(chain.current, height)), CompleteRow(OutcomesAt(chain, height), height))
  }

  function LockedRowsAt(chain: Chain, height: nat): seq<Row> {
    Collect(Flat(chain.current(height)), LockedRow(ById(Previous(chain.current, height)), height))
  }

  function PendingRowsAt(chain: Chain, height: nat): seq<Row> {
    Collect(Flat(chain.next(height)), PendingRow(ById(Previous(chain.next, height)), height))
  }

  function RowsAt(chain: Chain, height: nat): seq<Row> {
    if height == 0 then []
    else CompleteRowsAt(chain, height) + LockedRowsAt(chain, height) + PendingRowsAt(chain, height)
  }

  /** Where an id is at a height, in terms of the batches. */
  lemma AtListed(chain: Chain, id: string, height: nat, p: Placed)
    requires chain.Valid() && height >= 1
    ensures At(chain, id)(height) == Some(Presence(p, Locked)) <==> p.item.id == id && InBatches(chain.current(height), p)
    ensures At(chain, id)(height) == Some(Presence(p, Pending)) <==> p.item.id == id && InBatches(chain.next(height), p)
  {
    ListedIn(chain.current(height), id, p);
    ListedIn(chain.next(height), id, p);
  }

  ghost predicate InBatches(bs: seq<Batch>, p: Placed) {
    exists b :: b in bs && p.item in b.items && p.committee == b.committee && p.lockedHeight == b.lockedHeight
  }

  lemma ListedIn(bs: seq<Batch>, id: string, p: Placed)
    requires Distinct(Flat(bs), PlacedId)
    ensures Get(ById(bs), id) == Some(p) <==> p.item.id == id && InBatches(bs, p)
  {
    FlattenIn(bs, ItemsOf, p);
    MapByFinds(Flat(bs), PlacedId, id);
    if p in Flat(bs) {
      DistinctFinds(Flat(bs), PlacedId, p);
      var b :| b in bs && p in ItemsOf(b);
      var j :| 0 <= j < |b.items| && ItemsOf(b)[j] == p;
      assert b.items[j] == p.item;
    }
    if b :| b in bs && p.item in b.items && p.committee == b.committee && p.lockedHeight == b.lockedHeight {
      var j :| 0 <= j < |b.items| && b.items[j] == p.item;
      assert ItemsOf(b)[j] == p;
    }
  }

  predicate Succeeded(r: Row) {
    r.outcome.Some? && r.outcome.value.Swapped? && r.outcome.value.success
  }

  function Successes(rows: seq<Row>): (n: nat)
    ensures n <= |rows|
  {
    if rows == [] then 0 else Successes(rows[..|rows| - 1]) + if Succeeded(rows[|rows| - 1]) then 1 else 0
  }

  // ---------------------------------------------------------------- one kind, in terms of the full batches

  /** An item that was locked one height earlier is completed: an event with its id, of its own kind, is there. */
  ghost predicate Completes(
    full: FullChain, height: nat, id: string, items: FullBatch -> seq<Item>, concerns: Outcome -> bool)
  {
    && height >= 2 && id != ""
    && (exists b, i :: b in full.current(height - 1) && i in items(b) && i.id == id)
    && (exists e :: e in full.events(height) && e.id == id && concerns(e.outcome))
  }

  ghost predicate HasComplete(rows: seq<Row>, id: string) {
    exists r :: r in rows && r.stage == Complete && r.item.id == id
  }

  /** The row copies an item of one of these batches, with the batch's committee in 16 bits. */
  ghost predicate Copies(r: Row, bs: seq<FullBatch>, items: FullBatch -> seq<Item>, locked: FullBatch -> Option<nat>) {
    exists b :: b in bs && r.item in items(b) && r.committee == b.committee % 65536 && r.lockedHeight == locked(b)
  }

  /** Where a row comes from, by its stage; a completed one has the outcome of the last event of its kind. */
  ghost predicate ComesFrom(
    full: FullChain, height: nat, r: Row, items: FullBatch -> seq<Item>, locked: FullBatch -> Option<nat>,
    concerns: Outcome -> bool)
  {
    && r.height == height
    && match r.stage
       case Complete =>
         && height >= 2 && Copies(r, full.current(height - 1), items, locked) && r.outcome.Some?
         && forall i :: 0 <= i < |full.events(height)| && LastFor(full.events(height), r.item.id, concerns, i) ==>
              r.outcome == Some(full.events(height)[i].outcome)
       case Locked => Copies(r, full.current(height), items, locked) && r.outcome == None
       case Pending =>
         && Copies(r, full.next(height), items, b => if locked(b).Some? then Some(0) else None) && r.outcome == None
  }

  ghost predicate LastFor(events: seq<Event>, id: string, concerns: Outcome -> bool, i: nat)
    requires i < |events|
  {
    && events[i].id == id && concerns(events[i].outcome)
    && forall j :: i < j < |events| ==> !(events[j].id == id && concerns(events[j].outcome))
  }

  /** The rows of one kind. */
  ghost predicate RowsOfKind(
    full: FullChain, height: nat, rows: seq<Row>, items: FullBatch -> seq<Item>, locked: FullBatch -> Option<nat>,
    concerns: Outcome -> bool)
  {
    && (forall id :: HasComplete(rows, id) <==> Completes(full, height, id, items, concerns))
    && (forall r :: r in rows ==> ComesFrom(full, height, r, items, locked, concerns))
  }

  /** The kind takes these items and locked heights, and these outcomes concern it. */
  ghost predicate KindIs(
    kind: Kind, items: FullBatch -> seq<Item>, locked: FullBatch -> Option<nat>, concerns: Outcome -> bool)
  {
    && (forall b :: OnlyBatch(b, kind) == Batch(b.committee, locked(b), items(b)))
    && (forall o :: concerns(o) <==> KindOf(o) == kind)
  }

  lemma PlacedFrom(
    kind: Kind, items: FullBatch -> seq<Item>, locked: FullBatch -> Option<nat>, concerns: Outcome -> bool,
    bs: seq<FullBatch>, p: Placed)
    requires KindIs(kind, items, locked, concerns)
    ensures p in Flat(OnlyBatches(bs, kind)) <==>
            exists b :: b in bs && p.item in items(b) && p.committee == b.committee && p.lockedHeight == locked(b)
  {
    var only := OnlyBatches(bs, kind);
    FlattenIn(only, ItemsOf, p);
    if p in Flat(only) {
      var o :| o in only && p in ItemsOf(o);
      var k :| 0 <= k < |only| && only[k] == o;
      assert o == OnlyBatch(bs[k], kind) && bs[k] in bs;
    }
    if b :| b in bs && p.item in items(b) && p.committee == b.committee && p.lockedHeight == locked(b) {
      var k :| 0 <= k < |bs| && bs[k] == b;
      var o := OnlyBatch(b, kind);
      assert only[k] == o;
      var j :| 0 <= j < |o.items| && o.items[j] == p.item;
      assert ItemsOf(o)[j] == p;
    }
  }

  /** The events of a kind that name an item. */
  lemma OutcomeMeans(full: FullChain, kind: Kind, height: nat, id: string, concerns: Outcome -> bool)
    requires forall o :: concerns(o) <==> KindOf(o) == kind
    ensures
      var m, es := OutcomesAt(Only(full, kind), height), full.events(height);
      && (id in m <==> id != "" && exists e :: e in es && e.id == id && concerns(e.outcome))
      && (forall i :: 0 <= i < |es| && id != "" && LastFor(es, id, concerns, i) ==> id in m && m[id] == es[i])
  {
    var es, f := full.events(height), Both(OnlyEvent(kind), Named);
    CollectTwice(es, OnlyEvent(kind), Named);
    SelectedLast(es, f, EventId, id);
    assert OutcomesAt(Only(full, kind), height) == MapBy(Collect(es, f), EventId);
    forall e: Event ensures Selects(f, EventId, id, e) <==> concerns(e.outcome) && e.id == id && id != "" {
      assert f(e) == Then(OnlyEvent(kind)(e), Named);
    }
  }

  lemma CompletesExactly(
    full: FullChain, kind: Kind, height: nat, id: string, items: FullBatch -> seq<Item>, locked: FullBatch -> Option<nat>,
    concerns: Outcome -> bool)
    requires height >= 1 && KindIs(kind, items, locked, concerns)
    ensures HasComplete(RowsAt(Only(full, kind), height), id) <==> Completes(full, height, id, items, concerns)
  {
    var chain := Only(full, kind);
    var rows, f := RowsAt(chain, height), CompleteRow(OutcomesAt(chain, height), height);
    OutcomeMeans(full, kind, height, id, concerns);
    if r :| r in rows && r.stage == Complete && r.item.id == id {
      var p := PlacedOf(chain, height, r);
      PlacedFrom(kind, items, locked, concerns, full.current(height - 1), p);
      assert id in OutcomesAt(chain, height);
    }
    if Completes(full, height, id, items, concerns) {
      var b, i :| b in full.current(height - 1) && i in items(b) && i.id == id;
      var p := Placed(i, b.committee, locked(b));
      PlacedFrom(kind, items, locked, concerns, full.current(height - 1), p);
      CollectIn(Flat(Previous(chain.current, height)), f, f(p).value);
      assert f(p).value in rows;
    }
  }

  /** The placed item a complete row was made of. */
  lemma PlacedOf(chain: Chain, height: nat, r: Row) returns (p: Placed)
    requires height >= 1 && r in RowsAt(chain, height) && r.stage == Complete
    ensures height >= 2 && p in Flat(chain.current(height - 1)) && CompleteRow(OutcomesAt(chain, height), height)(p) == Some(r)
  {
    var f := CompleteRow(OutcomesAt(chain, height), height);
    CollectIn(Flat(Previous(chain.current, height)), f, r);
    CollectIn(Flat(chain.current(height)), LockedRow(ById(Previous(chain.current, height)), height), r);
    CollectIn(Flat(chain.next(height)), PendingRow(ById(Previous(chain.next, height)), height), r);
    p :| p in Flat(Previous(chain.current, height)) && f(p) == Some(r);
  }

  /** The placed item any other row was made of. */
  lemma PlacedNow(chain: Chain, height: nat, r: Row) returns (p: Placed)
    requires height >= 1 && r in RowsAt(chain, height) && r.stage != Complete
    ensures r.stage == Locked ==> p in Flat(chain.current(height))
    ensures r.stage == Pending ==> p in Flat(chain.next(height))
    ensures r == Row(p.item, Low16(p.committee), if r.stage == Locked then p.lockedHeight else NotYet(p.lockedHeight),
                     r.stage, None, height)
  {
    var f, g := LockedRow(ById(Previous(chain.current, height)), height), PendingRow(ById(Previous(chain.next, height)), height);
    CollectIn(Flat(Previous(chain.current, height)), CompleteRow(OutcomesAt(chain, height), height), r);
    CollectIn(Flat(chain.current(height)), f, r);
    CollectIn(Flat(chain.next(height)), g, r);
    if r.stage == Locked {
      p :| p in Flat(chain.current(height)) && f(p) == Some(r);
    } else {
      p :| p in Flat(chain.next(height)) && g(p) == Some(r);
    }
  }

  lemma CompleteComesFrom(
    full: FullChain, kind: Kind, height: nat, r: Row, items: FullBatch -> seq<Item>, locked: FullBatch -> Option<nat>,
    concerns: Outcome -> bool)
    requires height >= 1 && KindIs(kind, items, locked, concerns)
    requires r in RowsAt(Only(full, kind), height) && r.stage == Complete
    ensures ComesFrom(full, height, r, items, locked, concerns)
  {
    var p := PlacedOf(Only(full, kind), height, r);
    PlacedFrom(kind, items, locked, concerns, full.current(height - 1), p);
    OutcomeMeans(full, kind, height, r.item.id, concerns);
  }

  lemma RowComesFrom(
    full: FullChain, kind: Kind, height: nat, r: Row, items: FullBatch -> seq<Item>, locked: FullBatch -> Option<nat>,
    concerns: Outcome -> bool)
    requires height >= 1 && KindIs(kind, items, locked, concerns) && r in RowsAt(Only(full, kind), height)
    ensures ComesFrom(full, height, r, items, locked, concerns)
  {
    if r.stage == Complete {
      CompleteComesFrom(full, kind, height, r, items, locked, concerns);
    } else {
      var p := PlacedNow(Only(full, kind), height, r);
      PlacedFrom(kind, items, locked, concerns, if r.stage == Locked then full.current(height) else full.next(height), p);
    }
  }

  lemma KindRows(
    full: FullChain, kind: Kind, height: nat, items: FullBatch -> seq<Item>, locked: FullBatch -> Option<nat>,
    concerns: Outcome -> bool)
    requires height >= 1 && KindIs(kind, items, locked, concerns)
    ensures RowsOfKind(full, height, RowsAt(Only(full, kind), height), items, locked, concerns)
  {
    forall id ensures HasComplete(RowsAt(Only(full, kind), height), id) <==> Completes(full, height, id, items, concerns) {
      CompletesExactly(full, kind, height, id, items, locked, concerns);
    }
    forall r | r in RowsAt(Only(full, kind), height) ensures ComesFrom(full, height, r, items, locked, concerns) {
      RowComesFrom(full, kind, height, r, items, locked, concerns);
    }
  }

  /** Orders come from the order lists, keep the locked height of their batch, and are completed by swap events. */
  ghost predicate OrderRows(full: FullChain, height: nat, rows: seq<Row>) {
    RowsOfKind(full, height, rows, (b: FullBatch) => b.orders, (b: FullBatch) => Some(b.lockedHeight),
               (o: Outcome) => o.Swapped?)
  }

  /** Deposits come from the deposit lists and are completed by deposit events. */
  ghost predicate DepositRows(full: FullChain, height: nat, rows: seq<Row>) {
    RowsOfKind(full, height, rows, (b: FullBatch) => b.deposits, (b: FullBatch) => None, (o: Outcome) => o.Deposited?)
  }

  /** Withdrawals come from the withdrawal lists and are completed by withdrawal events. */
  ghost predicate WithdrawalRows(full: FullChain, height: nat, rows: seq<Row>) {
    RowsOfKind(full, height, rows, (b: FullBatch) => b.withdrawals, (b: FullBatch) => None, (o: Outcome) => o.Withdrawn?)
  }

  lemma EveryKind(full: FullChain, height: nat)
    requires height >= 1
    ensures OrderRows(full, height, RowsAt(Only(full, OfOrders), height))
    ensures DepositRows(full, height, RowsAt(Only(full, OfDeposits), height))
    ensures WithdrawalRows(full, height, RowsAt(Only(full, OfWithdrawals), height))
  {
    KindRows(full, OfOrders, height, (b: FullBatch) => b.orders, (b: FullBatch) => Some(b.lockedHeight),
             (o: Outcome) => o.Swapped?);
    KindRows(full, OfDeposits, height, (b: FullBatch) => b.deposits, (b: FullBatch) => None, (o: Outcome) => o.Deposited?);
    KindRows(full, OfWithdrawals, height, (b: FullBatch) => b.withdrawals, (b: FullBatch) => None,
             (o: Outcome) => o.Withdrawn?);
  }

  /** The complete order rows whose swap succeeded, by position. */
  ghost function SuccessAt(rows: seq<Row>): set<nat> {
    set i: nat | i < |rows| && rows[i].outcome.Some? && rows[i].outcome.value.Swapped? && rows[i].outcome.value.success
  }

  lemma {:induction false} SuccessesCount(rows: seq<Row>)
    ensures Successes(rows) == |SuccessAt(rows)|
  {
    if rows != [] {
      var t, i := rows[..|rows| - 1], |rows| - 1;
      SuccessesCount(t);
      assert forall k :: 0 <= k < |t| ==> t[k] == rows[k];
      if Succeeded(rows[i]) {
        assert SuccessAt(rows) == SuccessAt(t) + {i};
      } else {
        assert SuccessAt(rows) == SuccessAt(t);
      }
    }
  }

  /** The three passes over one kind. */
  method IndexKind(chain: Chain, height: nat) returns (rows: seq<Row>, complete: seq<Row>, counters: Counters)
    requires height >= 1
    ensures rows == RowsAt(chain, height) && complete == CompleteRowsAt(chain, height)
    ensures complete <= rows
    ensures |rows| == counters.complete + counters.locked + counters.pending
    ensures counters.complete == |CompleteRowsAt(chain, height)|
    ensures counters.locked == |LockedRowsAt(chain, height)| && counters.pending == |PendingRowsAt(chain, height)|
  {
    var outcomes := IndexSelected(chain.events(height), Named, EventId);
    var prevLocked := IndexItems(Previous(chain.current, height));
    var prevPending := IndexItems(Previous(chain.next, height));

    complete := CollectNested(Previous(chain.current, height), ItemsOf, CompleteRow(outcomes, height));
    var locked := CollectNested(chain.current(height), ItemsOf, LockedRow(prevLocked, height));
    var pending := CollectNested(chain.next(height), ItemsOf, PendingRow(prevPending, height));
    rows := complete + locked + pending;
    counters := Counters(|pending|, |locked|, |complete|);
  }

  method IndexDexBatch(full: FullChain, height: nat)
    returns (orders: seq<Row>, deposits: seq<Row>, withdrawals: seq<Row>,
             ofOrders: Counters, ofDeposits: Counters, ofWithdrawals: Counters, success: nat, failed: nat)
    requires height >= 1
    ensures orders == RowsAt(Only(full, OfOrders), height)
    ensures deposits == RowsAt(Only(full, OfDeposits), height)
    ensures withdrawals == RowsAt(Only(full, OfWithdrawals), height)
    ensures OrderRows(full, height, orders)
    ensures DepositRows(full, height, deposits)
    ensures WithdrawalRows(full, height, withdrawals)
    ensures |orders| == ofOrders.complete + ofOrders.locked + ofOrders.pending
    ensures |deposits| == ofDeposits.complete + ofDeposits.locked + ofDeposits.pending
    ensures |withdrawals| == ofWithdrawals.complete + ofWithdrawals.locked + ofWithdrawals.pending
    ensures success + failed == ofOrders.complete
    ensures ofOrders.complete <= |orders| && success == |SuccessAt(orders[..ofOrders.complete])|
  {
    var done;
    orders, done, ofOrders := IndexKind(Only(full, OfOrders), height);
    success := CountSuccesses(done);
    failed := |done| - success;
    SuccessesCount(done);
    assert orders[..|done|] == done;
    deposits, done, ofDeposits := IndexKind(Only(full, OfDeposits), height);
    withdrawals, done, ofWithdrawals := IndexKind(Only(full, OfWithdrawals), height);
    EveryKind(full, height);
  }

  /** buildH1ComparisonMaps for one of the two batch lists. */
  method IndexItems(batches: seq<Batch>) returns (m: map<string, Placed>)
    ensures m == ById(batches)
  {
    m := map[];
    for i := 0 to |batches|
      invariant m == ById(batches[..i])
    {
      ghost var done := Flat(batches[..i]);
      var items := ItemsOf(batches[i]);
      assert done + items[..0] == done;
      for j := 0 to |items|
        invariant m == MapBy(done + items[..j], PlacedId)
      {
        assert done + items[..j + 1] == (done + items[..j]) + [items[j]];
        MapBySnoc(done + items[..j], items[j], PlacedId);
        m := m[items[j].item.id := items[j]];
      }
      assert items[..|items|] == items;
      assert batches[..i + 1][..i] == batches[..i];
    }
    assert batches[..|batches|] == batches;
  }

  method CountSuccesses(rows: seq<Row>) returns (success: nat)
    ensures success == Successes(rows) == |SuccessAt(rows)|
  {
    success := 0;
    for i := 0 to |rows|
      invariant success == Successes(rows[..i])
    {
      assert rows[..i + 1][..i] == rows[..i];
      if Succeeded(rows[i]) {
        success := success + 1;
      }
    }
    assert rows[..|rows|] == rows;
    SuccessesCount(rows);
  }

  // ---------------------------------------------------------------- one row per id and height

  lemma PartsDistinct(chain: Chain, height: nat)
    requires chain.Valid() && height >= 1
    ensures Distinct(CompleteRowsAt(chain, height), RowId) && Distinct(LockedRowsAt(chain, height), RowId)
    ensures Distinct(PendingRowsAt(chain, height), RowId)
    ensures forall r :: r in LockedRowsAt(chain, height) ==> RowId(r) in ById(chain.current(height))
    ensures forall r :: r in PendingRowsAt(chain, height) ==> RowId(r) in ById(chain.next(height))
    ensures forall r :: r in CompleteRowsAt(chain, height) ==>
              RowId(r) in ById(Previous(chain.current, height)) && RowId(r) in OutcomesAt(chain, height)
  {
    PreviousDistinct(chain, height);
    CollectDistinct(Flat(Previous(chain.current, height)), CompleteRow(OutcomesAt(chain, height), height), PlacedId, RowId);
    CollectDistinct(Flat(chain.current(height)), LockedRow(ById(Previous(chain.current, height)), height), PlacedId, RowId);
    CollectDistinct(Flat(chain.next(height)), PendingRow(ById(Previous(chain.next, height)), height), PlacedId, RowId);
    forall r | r in CompleteRowsAt(chain, height) ensures RowId(r) in OutcomesAt(chain, height) {
      CollectIn(Flat(Previous(chain.current, height)), CompleteRow(OutcomesAt(chain, height), height), r);
    }
  }

  lemma PreviousDistinct(chain: Chain, height: nat)
    requires chain.Valid()
    ensures Distinct(Flat(Previous(chain.current, height)), PlacedId) && Distinct(Flat(Previous(chain.next, height)), PlacedId)
  {
  }

  /** No height writes two rows for one id. */
  lemma OneRowPerId(chain: Chain, height: nat)
    requires chain.Valid()
    ensures Distinct(RowsAt(chain, height), RowId)
  {
    if height >= 1 {
      PartsDistinct(chain, height);
      var a, b, c := CompleteRowsAt(chain, height), LockedRowsAt(chain, height), PendingRowsAt(chain, height);
      DistinctConcat(a, b);
      forall r, q | r in a + b && q in c ensures RowId(r) != RowId(q) {
        assert r in a || r in b;
      }
      DistinctConcat(a + b, c);
    }
  }

  lemma DistinctConcat(a: seq<Row>, b: seq<Row>)
    requires Distinct(a, RowId) && Distinct(b, RowId) && forall r, q :: r in a && q in b ==> RowId(r) != RowId(q)
    ensures Distinct(a + b, RowId)
  {
    forall i, j | 0 <= i < j < |a + b| ensures RowId((a + b)[i]) != RowId((a + b)[j]) {
      assert i < |a| ==> (a + b)[i] in a;
      assert j >= |a| ==> (a + b)[j] in b;
    }
  }

  // ---------------------------------------------------------------- refinement

  datatype Presence = Presence(placed: Placed, stage: Stage)

  function Feed(chain: Chain): nat -> map<string, Row> {
    (h: nat) => MapBy(RowsAt(chain, h), RowId)
  }

  function PresenceIn(current: map<string, Placed>, next: map<string, Placed>, id: string): Option<Presence> {
    if id in current then Some(Presence(current[id], Locked))
    else if id in next then Some(Presence(next[id], Pending))
    else None
  }

  /** Where an id is at a height: in the current batch, in the next batch, or nowhere. */
  function At(chain: Chain, id: string): nat -> Option<Presence> {
    (h: nat) => if h == 0 then None else PresenceIn(ById(chain.current(h)), ById(chain.next(h)), id)
  }

  function OutcomeOf(chain: Chain, id: string): nat -> Option<Outcome> {
    (h: nat) => if id in OutcomesAt(chain, h) then Some(OutcomesAt(chain, h)[id].outcome) else None
  }

  ghost predicate Describes(row: Option<Row>, item: Item, stage: Stage, outcome: Option<Outcome>) {
    row.Some? && row.value.item == item && row.value.stage == stage && row.value.outcome == outcome
  }

  /** Same batch kind, address and amounts; committee and locked height are not compared. */
  ghost predicate Unchanged(before: Option<Presence>, now: Option<Presence>) {
    before.Some? && now.Some? && before.value.stage == now.value.stage && before.value.placed.item == now.value.placed.item
  }

  /** The row of a placed item; a pending one has no locked height yet. */
  function RowOf(p: Placed, stage: Stage, outcome: Option<Outcome>, height: nat): Row {
    Row(p.item, Low16(p.committee), if stage == Pending then NotYet(p.lockedHeight) else p.lockedHeight, stage, outcome, height)
  }

  ghost predicate FollowsHere(
    before: Option<Presence>, now: Option<Presence>, outcome: Option<Outcome>, row: Option<Row>, height: nat)
  {
    match now
    case Some(p) => row == if Unchanged(before, now) then None else Some(RowOf(p.placed, p.stage, None, height))
    case None =>
      row == if before.Some? && before.value.stage == Locked && outcome.Some?
             then Some(RowOf(before.value.placed, Complete, outcome, height))
             else None
  }

  ghost predicate Follows(at: nat -> Option<Presence>, outcome: nat -> Option<Outcome>, row: Option<Row>, height: nat)
    requires height >= 1
  {
    FollowsHere(at(height - 1), at(height), outcome(height), row, height)
  }

  /** The row of an id, by which of the three passes produces it. */
  lemma FeedAt(chain: Chain, id: string, height: nat)
    requires chain.Valid() && height >= 1
    ensures
      var prev, curr, next := ById(Previous(chain.current, height)), ById(chain.current(height)), ById(chain.next(height));
      Emitted(Feed(chain), id)(height) ==
      if id in next && PendingRow(ById(Previous(chain.next, height)), height)(next[id]).Some?
      then PendingRow(ById(Previous(chain.next, height)), height)(next[id])
      else if id in curr && LockedRow(prev, height)(curr[id]).Some?
      then LockedRow(prev, height)(curr[id])
      else if id in prev then CompleteRow(OutcomesAt(chain, height), height)(prev[id])
      else None
  {
    PreviousDistinct(chain, height);
    var a, b, c := CompleteRowsAt(chain, height), LockedRowsAt(chain, height), PendingRowsAt(chain, height);
    MapByConcat(a + b, c, RowId, id);
    TwoPasses(Flat(Previous(chain.current, height)), CompleteRow(OutcomesAt(chain, height), height),
              Flat(chain.current(height)), LockedRow(ById(Previous(chain.current, height)), height), PlacedId, RowId, id);
    CollectByKey(Flat(chain.next(height)), PendingRow(ById(Previous(chain.next, height)), height), PlacedId, RowId, id);
  }

  /** Follows, in terms of the four lookup maps around a height and the completion events there. */
  lemma RowFollows(
    prev: map<string, Placed>, prevNext: map<string, Placed>, curr: map<string, Placed>, next: map<string, Placed>,
    outcomes: map<string, Event>, id: string, height: nat, row: Option<Row>)
    requires id in prev ==> id !in prevNext
    requires id in curr ==> id !in next
    requires id in prev && id in outcomes ==> id !in curr && id !in next
    requires id in prev ==> PlacedId(prev[id]) == id
    requires id in curr ==> PlacedId(curr[id]) == id
    requires id in next ==> PlacedId(next[id]) == id
    requires row ==
             if id in next && PendingRow(prevNext, height)(next[id]).Some? then PendingRow(prevNext, height)(next[id])
             else if id in curr && LockedRow(prev, height)(curr[id]).Some? then LockedRow(prev, height)(curr[id])
             else if id in prev then CompleteRow(outcomes, height)(prev[id])
             else None
    ensures FollowsHere(PresenceIn(prev, prevNext, id), PresenceIn(curr, next, id),
                        if id in outcomes then Some(outcomes[id].outcome) else None, row, height)
  {
  }

  lemma RowWritten(chain: Chain, id: string, height: nat)
    requires chain.Valid() && height >= 1
    ensures Follows(At(chain, id), OutcomeOf(chain, id), Emitted(Feed(chain), id)(height), height)
  {
    var prev, prevNext := ById(Previous(chain.current, height)), ById(Previous(chain.next, height));
    var curr, next := ById(chain.current(height)), ById(chain.next(height));
    FeedAt(chain, id, height);
    MapByFinds(Flat(Previous(chain.current, height)), PlacedId, id);
    MapByFinds(Flat(chain.current(height)), PlacedId, id);
    MapByFinds(Flat(chain.next(height)), PlacedId, id);
    RowFollows(prev, prevNext, curr, next, OutcomesAt(chain, height), id, height, Emitted(Feed(chain), id)(height));
  }

  ghost predicate Right(at: nat -> Option<Presence>, row: Option<Row>, height: nat) {
    at(height).Some? ==> Describes(row, at(height).value.placed.item, at(height).value.stage, None)
  }

  lemma NewestRight(at: nat -> Option<Presence>, outcome: nat -> Option<Outcome>, emit: nat -> Option<Row>, height: nat)
    requires at(0).None? && emit(0).None?
    requires forall h :: 1 <= h <= height ==> Follows(at, outcome, emit(h), h)
    ensures Right(at, Newest(emit, height), height)
  {
    var right := (row: Option<Row>, h: nat) => Right(at, row, h);
    forall h | 1 <= h <= height && emit(h).Some? ensures right(emit(h), h) {
      assert Follows(at, outcome, emit(h), h);
    }
    forall h, o | 1 <= h <= height && emit(h).None? && right(o, h - 1) ensures right(o, h) {
      assert Follows(at, outcome, emit(h), h);
    }
    Compaction(emit, right, height);
  }

  // ---------------------------------------------------------------- what production shows

  /** The same chain as seen by an activity that finds the staged events gone. */
  function Blind(chain: Chain): Chain {
    chain.(events := (h: nat) => [])
  }

  ghost function StoredRows(acts: seq<Action>, entity: Entity, chain: Chain, id: string): nat -> Option<Row>
    requires ValidRun(WELL_BEHAVED, INITIAL, acts)
  {
    Stored(After(WELL_BEHAVED, INITIAL, acts), entity, Feed(chain), Feed(Blind(chain)), id)
  }

  /** The completion event of an id, where some promoted attempt saw it. */
  ghost function OutcomeSeen(acts: seq<Action>, entity: Entity, chain: Chain, id: string): nat -> Option<Outcome>
    requires ValidRun(WELL_BEHAVED, INITIAL, acts)
  {
    (h: nat) => if SawEvents(After(WELL_BEHAVED, INITIAL, acts), entity, h) then OutcomeOf(chain, id)(h) else None
  }

  lemma BlindRow(chain: Chain, id: string, height: nat)
    requires chain.Valid() && height >= 1
    ensures Follows(At(chain, id), (h: nat) => None, Emitted(Feed(Blind(chain)), id)(height), height)
  {
    assert Blind(chain).Valid() by {
      assert forall h: nat :: OutcomesAt(Blind(chain), h) == map[];
    }
    RowWritten(Blind(chain), id, height);
    assert At(Blind(chain), id)(height) == At(chain, id)(height);
    assert At(Blind(chain), id)(height - 1) == At(chain, id)(height - 1);
    assert OutcomeOf(Blind(chain), id)(height) == None;
  }

  lemma ShownFollows(
    before: Option<Presence>, now: Option<Presence>, outcome: Option<Outcome>, row: Option<Row>, blind: Option<Row>,
    saw: bool, went: bool, last: bool, height: nat)
    requires saw || went
    requires FollowsHere(before, now, outcome, row, height) && FollowsHere(before, now, None, blind, height)
    ensures FollowsHere(before, now, if saw then outcome else None, Shown(row, blind, saw, went, last), height)
  {
  }

  lemma StoredFollows(acts: seq<Action>, entity: Entity, chain: Chain, id: string, height: nat)
    requires chain.Valid() && height >= 1 && ValidRun(WELL_BEHAVED, INITIAL, acts)
    requires height in After(WELL_BEHAVED, INITIAL, acts).log
    ensures Follows(At(chain, id), OutcomeSeen(acts, entity, chain, id), StoredRows(acts, entity, chain, id)(height), height)
  {
    var s := After(WELL_BEHAVED, INITIAL, acts);
    StoredIs(acts, entity, Feed(chain), Feed(Blind(chain)), id, height);
    RowWritten(chain, id, height);
    BlindRow(chain, id, height);
    ShownFollows(At(chain, id)(height - 1), At(chain, id)(height), OutcomeOf(chain, id)(height),
                 Emitted(Feed(chain), id)(height), Emitted(Feed(Blind(chain)), id)(height),
                 SawEvents(s, entity, height), WentBlind(s, entity, height),
                 LastSighted(Contents(s.production, Slot(entity, height))), height);
  }

  lemma StoredFollowsAll(acts: seq<Action>, entity: Entity, chain: Chain, id: string, height: nat)
    requires chain.Valid() && Indexed(acts, height)
    ensures StoredRows(acts, entity, chain, id)(0).None?
    ensures forall h :: 1 <= h <= height ==>
              Follows(At(chain, id), OutcomeSeen(acts, entity, chain, id), StoredRows(acts, entity, chain, id)(h), h)
  {
    assert Feed(chain)(0) == Feed(Blind(chain))(0) == map[];
    StoredAtZero(After(WELL_BEHAVED, INITIAL, acts), entity, Feed(chain), Feed(Blind(chain)), id);
    forall h | 1 <= h <= height
      ensures Follows(At(chain, id), OutcomeSeen(acts, entity, chain, id), StoredRows(acts, entity, chain, id)(h), h)
    {
      StoredFollows(acts, entity, chain, id, h);
    }
  }

  /** In every run, for every id in a batch the newest row has the right stage, address and amounts. */
  lemma DexRefinement(acts: seq<Action>, entity: Entity, chain: Chain, id: string, height: nat)
    requires chain.Valid() && Indexed(acts, height)
    ensures
      var at := At(chain, id)(height);
      at.Some? ==> Describes(Newest(StoredRows(acts, entity, chain, id), height), at.value.placed.item, at.value.stage, None)
  {
    StoredFollowsAll(acts, entity, chain, id, height);
    NewestRight(At(chain, id), OutcomeSeen(acts, entity, chain, id), StoredRows(acts, entity, chain, id), height);
  }

  /** The heights at which a placed id is written. */
  ghost function Moved(at: nat -> Option<Presence>): nat -> bool {
    (h: nat) => MovedAt(at, h)
  }

  ghost predicate MovedAt(at: nat -> Option<Presence>, h: nat) {
    h >= 1 && at(h).Some? && !Unchanged(at(h - 1), at(h))
  }

  /** Committee and locked height are not compared: the newest row has those of the height the id was last written at. */
  lemma NewestPlaced(acts: seq<Action>, entity: Entity, chain: Chain, id: string, height: nat)
    requires chain.Valid() && Indexed(acts, height) && At(chain, id)(height).Some?
    ensures
      var at := At(chain, id);
      var g := LastTime(Moved(at), height);
      && 1 <= g <= height && at(g).Some?
      && Newest(StoredRows(acts, entity, chain, id), height) == Some(RowOf(at(g).value.placed, at(g).value.stage, None, g))
  {
    StoredFollowsAll(acts, entity, chain, id, height);
    NewestIsMoved(At(chain, id), OutcomeSeen(acts, entity, chain, id), StoredRows(acts, entity, chain, id), height);
  }

  lemma {:induction false} NewestIsMoved(
    at: nat -> Option<Presence>, outcome: nat -> Option<Outcome>, emit: nat -> Option<Row>, height: nat)
    requires at(0).None? && emit(0).None? && at(height).Some?
    requires forall h :: 1 <= h <= height ==> Follows(at, outcome, emit(h), h)
    ensures
      var g := LastTime(Moved(at), height);
      && 1 <= g <= height && at(g).Some?
      && Newest(emit, height) == Some(RowOf(at(g).value.placed, at(g).value.stage, None, g))
  {
    assert Follows(at, outcome, emit(height), height);
    if !Moved(at)(height) {
      NewestIsMoved(at, outcome, emit, height - 1);
    }
  }

  /** The locked height a row of this placement has. */
  function LockedHeightOf(p: Presence): Option<nat> {
    if p.stage == Pending then NotYet(p.placed.lockedHeight) else p.placed.lockedHeight
  }

  /** What is read of the committee and the locked height is right exactly when, in the form they are stored, they are
      as they were at that height. */
  lemma PlacementRecoveredIff(acts: seq<Action>, entity: Entity, chain: Chain, id: string, height: nat)
    requires chain.Valid() && Indexed(acts, height) && At(chain, id)(height).Some?
    ensures
      var at := At(chain, id);
      var g := LastTime(Moved(at), height);
      var row := Newest(StoredRows(acts, entity, chain, id), height);
      && at(g).Some? && row.Some?
      && (row.value.committee == Low16(at(height).value.placed.committee)
          <==> Low16(at(g).value.placed.committee) == Low16(at(height).value.placed.committee))
      && (row.value.lockedHeight == LockedHeightOf(at(height).value)
          <==> LockedHeightOf(at(g).value) == LockedHeightOf(at(height).value))
  {
    NewestPlaced(acts, entity, chain, id, height);
  }

  const ITEM := Item("a", "", Order(5, 7))

  function MovingPlace(h: nat): Placed {
    if h <= 1 then Placed(ITEM, 1, Some(1)) else Placed(ITEM, 2, Some(9))
  }

  function MovingBatchAt(h: nat): seq<Batch> {
    [Batch(MovingPlace(h).committee, MovingPlace(h).lockedHeight, [ITEM])]
  }

  /** A locked order whose batch has another committee and locked height from height 2 on. */
  function MovingBatch(): Chain {
    Chain((h: nat) => MovingBatchAt(h), (h: nat) => [], (h: nat) => [])
  }

  lemma OneItem(b: Batch, p: Placed)
    requires ItemsOf(b) == [p]
    ensures Flat([b]) == [p] && ById([b]) == map[p.item.id := p]
  {
    assert [b][..0] == [] && [p][..0] == [];
    assert Flatten([b], ItemsOf) == Flatten([b][..0], ItemsOf) + ItemsOf(b);
    assert MapBy([p], PlacedId) == MapBy([p][..0], PlacedId)[PlacedId(p) := p];
  }

  lemma MovingBatchFlat(h: nat)
    ensures Flat(MovingBatchAt(h)) == [MovingPlace(h)] && ById(MovingBatchAt(h)) == map["a" := MovingPlace(h)]
  {
    var p, b := MovingPlace(h), MovingBatchAt(h)[0];
    assert ItemsOf(b) == [p];
    OneItem(b, p);
  }

  lemma MovingBatchValid()
    ensures MovingBatch().Valid()
  {
    forall k: nat
      ensures Distinct(Flat(MovingBatch().current(k)), PlacedId) && Distinct(Flat(MovingBatch().next(k)), PlacedId)
      ensures OutcomesAt(MovingBatch(), k) == map[] && ById(MovingBatch().next(k)) == map[]
    {
      MovingBatchFlat(k);
    }
  }

  lemma MovingBatchAtHeight(h: nat)
    requires h >= 1
    ensures At(MovingBatch(), "a")(h) == Some(Presence(MovingPlace(h), Locked))
  {
    MovingBatchFlat(h);
  }

  lemma MovedOnce(at: nat -> Option<Presence>)
    requires at(1).Some? && at(2).Some? && at(0).None? && Unchanged(at(1), at(2))
    ensures LastTime(Moved(at), 2) == 1
  {
    assert Moved(at)(1) && !Moved(at)(2);
    assert LastTime(Moved(at), 2) == LastTime(Moved(at), 1);
  }

  /** An item placed at height 1 and again at height 2, with nothing but its batch changed, is read as placed first. */
  lemma ReadAsPlacedFirst(acts: seq<Action>, entity: Entity, chain: Chain, id: string, p: Placed, q: Placed)
    requires chain.Valid() && Indexed(acts, 2) && p.item == q.item
    requires At(chain, id)(1) == Some(Presence(p, Locked)) && At(chain, id)(2) == Some(Presence(q, Locked))
    ensures Newest(StoredRows(acts, entity, chain, id), 2) == Some(RowOf(p, Locked, None, 1))
  {
    MovedOnce(At(chain, id));
    NewestPlaced(acts, entity, chain, id, 2);
  }

  /** There every run leaves readers of height 2 with the old committee and the old locked height. */
  lemma PlacementNotRecovered(acts: seq<Action>)
    requires Indexed(acts, 2)
    ensures At(MovingBatch(), "a")(2) == Some(Presence(Placed(ITEM, 2, Some(9)), Locked))
    ensures Newest(StoredRows(acts, DexOrders, MovingBatch(), "a"), 2) == Some(RowOf(Placed(ITEM, 1, Some(1)), Locked, None, 1))
  {
    MovingBatchAtHeight(1);
    MovingBatchAtHeight(2);
    MovingBatchValid();
    ReadAsPlacedFirst(acts, DexOrders, MovingBatch(), "a", MovingPlace(1), MovingPlace(2));
  }

  lemma DepartedRow(
    at: nat -> Option<Presence>, outcome: nat -> Option<Outcome>, emit: nat -> Option<Row>, g: nat, height: nat)
    requires 2 <= g <= height && at(0).None? && emit(0).None?
    requires forall h :: 1 <= h <= height ==> Follows(at, outcome, emit(h), h)
    requires at(g - 1).Some? && forall h :: g <= h <= height ==> at(h).None?
    ensures
      var last := at(g - 1).value;
      if last.stage == Locked && outcome(g).Some?
      then Newest(emit, height) == Some(RowOf(last.placed, Complete, outcome(g), g))
      else Newest(emit, height) == Newest(emit, g - 1)
           && Describes(Newest(emit, height), last.placed.item, last.stage, None)
  {
    forall h | g < h <= height ensures emit(h).None? {
      assert Follows(at, outcome, emit(h), h);
    }
    NewestKept(emit, g, height);
    assert Follows(at, outcome, emit(g), g);
    NewestRight(at, outcome, emit, g - 1);
  }

  /** While an id that has left the batches stays away, its newest row is the complete one if it was locked and some
      promoted attempt saw its completion event; otherwise it is the row from before, pending or locked: leaving a batch
      without an event writes nothing. */
  lemma DepartedItem(acts: seq<Action>, entity: Entity, chain: Chain, id: string, g: nat, height: nat)
    requires chain.Valid() && Indexed(acts, height) && 2 <= g <= height
    requires At(chain, id)(g - 1).Some? && forall h :: g <= h <= height ==> At(chain, id)(h).None?
    ensures
      var stored, last := StoredRows(acts, entity, chain, id), At(chain, id)(g - 1).value;
      var outcome := OutcomeSeen(acts, entity, chain, id)(g);
      if last.stage == Locked && outcome.Some?
      then Newest(stored, height) == Some(RowOf(last.placed, Complete, outcome, g))
      else Newest(stored, height) == Newest(stored, g - 1)
           && Describes(Newest(stored, height), last.placed.item, last.stage, None)
  {
    StoredFollowsAll(acts, entity, chain, id, height);
    DepartedRow(At(chain, id), OutcomeSeen(acts, entity, chain, id), StoredRows(acts, entity, chain, id), g, height);
  }

  /** In particular, while a completed id stays away its newest row is the complete one, with the outcome of its event,
      exactly if some promoted attempt saw the event; otherwise it still reads locked. */
  lemma CompletionIsNewest(acts: seq<Action>, entity: Entity, chain: Chain, id: string, g: nat, height: nat)
    requires chain.Valid() && Indexed(acts, height) && 2 <= g <= height
    requires At(chain, id)(g - 1).Some? && At(chain, id)(g - 1).value.stage == Locked && OutcomeOf(chain, id)(g).Some?
    requires forall h :: g <= h <= height ==> At(chain, id)(h).None?
    ensures
      var newest, item := Newest(StoredRows(acts, entity, chain, id), height), At(chain, id)(g - 1).value.placed.item;
      if SawEvents(After(WELL_BEHAVED, INITIAL, acts), entity, g)
      then Describes(newest, item, Complete, OutcomeOf(chain, id)(g))
      else Describes(newest, item, Locked, None)
  {
    DepartedItem(acts, entity, chain, id, g, height);
  }
}
