/** IndexOrders: order-book rows with change detection, swap events and cancellations. */
module Orders {
  import opened CommitProtocol
  import opened CommitTraces
  import opened Integers
  import opened Lists
  import opened Snapshots

  datatype Terms = Terms(
    data: string,
    amountForSale: nat,
    requestedAmount: nat,
    sellerReceiveAddress: string,
    buyerSendAddress: string,
    buyerReceiveAddress: string,
    buyerChainDeadline: nat,
    sellersSendAddress: string)

  datatype Order = Order(id: string, committee: nat, terms: Terms)

  datatype Status = Open | Complete | Canceled
  datatype Row = Row(order: Order, status: Status, height: nat)

  /** RPC order books and the order ids of the staged swap events, by height. */
  datatype Chain = Chain(book: nat -> seq<Order>, swaps: nat -> seq<string>) {
    ghost predicate Valid() {
      forall h :: Distinct(book(h), IdOf)
    }
  }

  function IdOf(o: Order): string { o.id }

  function RowId(r: Row): string { r.order.id }

  function Itself(id: string): string { id }

  function NonEmpty(id: string): Option<string> {
    if id == "" then None else Some(id)
  }

  function OrderStateChanged(prev: Terms, curr: Terms): (changed: bool)
    ensures changed <==> prev != curr
  {
    if prev.data != curr.data then true
    else if prev.amountForSale != curr.amountForSale then true
    else if prev.requestedAmount != curr.requestedAmount then true
    else if prev.sellerReceiveAddress != curr.sellerReceiveAddress then true
    else if prev.buyerSendAddress != curr.buyerSendAddress then true
    else if prev.buyerReceiveAddress != curr.buyerReceiveAddress then true
    else if prev.buyerChainDeadline != curr.buyerChainDeadline then true
    else prev.sellersSendAddress != curr.sellersSendAddress
  }

  function RowOf(o: Order, status: Status, height: nat): Row {
    Row(o.(committee := Low16(o.committee)), status, height)
  }

  function Change(prev: map<string, Order>, swaps: map<string, string>, height: nat): Order -> Option<Row> {
    (c: Order) =>
      var swapped := c.id in swaps;
      if c.id !in prev || swapped || OrderStateChanged(prev[c.id].terms, c.terms)
      then Some(RowOf(c, if swapped then Complete else Open, height))
      else None
  }

  /** The orders that left the book without a swap event. */
  function Cancellations(prev: map<string, Order>, curr: map<string, Order>, swaps: map<string, string>, height: nat)
    : map<string, Row>
  {
    map id | id in prev && id !in curr && id !in swaps :: RowOf(prev[id], Canceled, height)
  }

  function PrevAt(chain: Chain, height: nat): map<string, Order> {
    MapBy(Previous(chain.book, height), IdOf)
  }

  function SwapsAt(chain: Chain, height: nat): map<string, string> {
    MapBy(Collect(chain.swaps(height), NonEmpty), Itself)
  }

  method IndexOrders(chain: Chain, height: nat) returns (changed: seq<Row>, canceled: seq<Row>)
    requires height >= 1
    ensures changed == Collect(chain.book(height), Change(PrevAt(chain, height), SwapsAt(chain, height), height))
    ensures
      var gone := Cancellations(PrevAt(chain, height), MapBy(chain.book(height), IdOf), SwapsAt(chain, height), height);
      MapBy(canceled, RowId) == gone && |canceled| == |gone|
  {
    var prev := IndexBy(Previous(chain.book, height), IdOf);
    var swaps := IndexSelected(chain.swaps(height), NonEmpty, Itself);
    changed := CollectRows(chain.book(height), Change(prev, swaps, height));

    forall id | id in prev ensures prev[id].id == id {
      MapByFinds(Previous(chain.book, height), IdOf, id);
    }
    canceled := CollectCancellations(prev, chain.book(height), swaps, height);
  }

  method CollectCancellations(prev: map<string, Order>, book: seq<Order>, swaps: map<string, string>, height: nat)
    returns (canceled: seq<Row>)
    requires forall id :: id in prev ==> prev[id].id == id
    ensures
      var gone := Cancellations(prev, MapBy(book, IdOf), swaps, height);
      MapBy(canceled, RowId) == gone && |canceled| == |gone|
  {
    canceled := [];
    var todo := prev.Keys;
    ghost var curr := MapBy(book, IdOf);
    while todo != {}
      invariant todo <= prev.Keys
      invariant
        var gone := Cancellations(prev - todo, curr, swaps, height);
        MapBy(canceled, RowId) == gone && |canceled| == |gone|
      decreases |todo|
    {
      // the iteration order of a Go map is unspecified
      var id :| id in todo;
      var existsNow := InBook(book, id);
      CancelNext(prev, todo, id, curr, swaps, height);
      if !existsNow && id !in swaps {
        var row := RowOf(prev[id], Canceled, height);
        OneMoreCanceled(canceled, Cancellations(prev - todo, curr, swaps, height), row);
        canceled := canceled + [row];
      }
      todo := todo - {id};
    }
    assert prev - {} == prev;
  }

  lemma CancelNext(
    prev: map<string, Order>, todo: set<string>, id: string, curr: map<string, Order>, swaps: map<string, string>, height: nat)
    requires id in todo && id in prev
    ensures
      var gone := Cancellations(prev - todo, curr, swaps, height);
      && id !in gone
      && Cancellations(prev - (todo - {id}), curr, swaps, height)
         == if id !in curr && id !in swaps then gone[id := RowOf(prev[id], Canceled, height)] else gone
  {
  }

  lemma OneMoreCanceled(canceled: seq<Row>, gone: map<string, Row>, row: Row)
    requires MapBy(canceled, RowId) == gone && |canceled| == |gone| && RowId(row) !in gone
    ensures MapBy(canceled + [row], RowId) == gone[RowId(row) := row] && |canceled + [row]| == |gone[RowId(row) := row]|
  {
    MapBySnoc(canceled, row, RowId);
  }

  method InBook(book: seq<Order>, id: string) returns (found: bool)
    ensures found <==> id in MapBy(book, IdOf)
  {
    found := false;
    for i := 0 to |book|
      invariant !found && forall j :: 0 <= j < i ==> book[j].id != id
    {
      if book[i].id == id {
        MapByFinds(book, IdOf, id);
        assert IdOf(book[i]) == id;
        return true;
      }
    }
    MapByFinds(book, IdOf, id);
  }

  // ---------------------------------------------------------------- refinement

  /** What the deduplicated table receives for a height: changed rows and cancellations never share an id. */
  function Feed(chain: Chain): nat -> map<string, Row> {
    (h: nat) =>
      if h == 0 then map[]
      else
        MapBy(Collect(chain.book(h), Change(PrevAt(chain, h), SwapsAt(chain, h), h)), RowId)
        + Cancellations(PrevAt(chain, h), MapBy(chain.book(h), IdOf), SwapsAt(chain, h), h)
  }

  function At(chain: Chain, id: string): nat -> Option<Order> {
    (h: nat) => if h == 0 then None else Get(MapBy(chain.book(h), IdOf), id)
  }

  function Swapped(chain: Chain, id: string): nat -> bool {
    (h: nat) => id in SwapsAt(chain, h)
  }

  /** The whole change test, seen for one order id. */
  ghost predicate Follows(at: nat -> Option<Order>, swapped: nat -> bool, row: Option<Row>, height: nat)
    requires height >= 1
  {
    row == RowFor(at(height - 1), at(height), swapped(height), height)
  }

  function RowFor(before: Option<Order>, now: Option<Order>, swapped: bool, height: nat): Option<Row> {
    match (before, now)
    case (None, None) => None
    case (Some(p), None) => if swapped then None else Some(RowOf(p, Canceled, height))
    case (None, Some(c)) => Some(RowOf(c, if swapped then Complete else Open, height))
    case (Some(p), Some(c)) =>
      if swapped || p.terms != c.terms then Some(RowOf(c, if swapped then Complete else Open, height)) else None
  }

  /** The row an id gets, from its previous and current order and its swap flag alone. */
  lemma FeedAt(chain: Chain, id: string, height: nat)
    requires chain.Valid() && height >= 1
    ensures
      var prev, swaps, curr := PrevAt(chain, height), SwapsAt(chain, height), MapBy(chain.book(height), IdOf);
      Emitted(Feed(chain), id)(height) ==
      if id in prev && id !in curr && id !in swaps then Some(RowOf(prev[id], Canceled, height))
      else if id in curr then Change(prev, swaps, height)(curr[id]) else None
  {
    var prev, swaps, curr := PrevAt(chain, height), SwapsAt(chain, height), MapBy(chain.book(height), IdOf);
    CollectByKey(chain.book(height), Change(prev, swaps, height), IdOf, RowId, id);
    var gone := Cancellations(prev, curr, swaps, height);
    assert Feed(chain)(height) == MapBy(Collect(chain.book(height), Change(prev, swaps, height)), RowId) + gone;
  }

  /** The order a book lists under an id. */
  lemma AtListed(chain: Chain, id: string, height: nat, o: Order)
    requires chain.Valid() && height >= 1
    ensures At(chain, id)(height) == Some(o) <==> o in chain.book(height) && o.id == id
  {
    MapByFinds(chain.book(height), IdOf, id);
    if o in chain.book(height) {
      DistinctFinds(chain.book(height), IdOf, o);
    }
  }

  lemma SwappedMeans(chain: Chain, id: string, height: nat)
    ensures Swapped(chain, id)(height) <==> id != "" && id in chain.swaps(height)
  {
    var ids := Collect(chain.swaps(height), NonEmpty);
    MapByFinds(ids, Itself, id);
    CollectIn(chain.swaps(height), NonEmpty, id);
  }

  lemma RowWritten(chain: Chain, id: string, height: nat)
    requires chain.Valid() && height >= 1
    ensures Follows(At(chain, id), Swapped(chain, id), Emitted(Feed(chain), id)(height), height)
    ensures
      var before, now := At(chain, id)(height - 1), At(chain, id)(height);
      var swapped := id != "" && id in chain.swaps(height);
      Emitted(Feed(chain), id)(height) ==
      if now.Some? && swapped
      then Some(Row(Order(id, now.value.committee % 65536, now.value.terms), Complete, height))
      else if now.Some? && (before.None? || before.value.terms != now.value.terms)
      then Some(Row(Order(id, now.value.committee % 65536, now.value.terms), Open, height))
      else if now.None? && before.Some? && !swapped
      then Some(Row(Order(id, before.value.committee % 65536, before.value.terms), Canceled, height))
      else None
  {
    FeedAt(chain, id, height);
    SwappedMeans(chain, id, height);
    MapByFinds(chain.book(height), IdOf, id);
    MapByFinds(Previous(chain.book, height), IdOf, id);
    assert Get(PrevAt(chain, height), id) == At(chain, id)(height - 1);
  }

  // ---------------------------------------------------------------- what production shows

  /** The same chain as seen by an activity that finds the staged events gone. */
  function Blind(chain: Chain): Chain {
    chain.(swaps := (h: nat) => [])
  }

  /** The rows production shows, whichever attempts saw the swap events. */
  ghost function StoredRows(acts: seq<Action>, chain: Chain, id: string): nat -> Option<Row>
    requires ValidRun(WELL_BEHAVED, INITIAL, acts)
  {
    Stored(After(WELL_BEHAVED, INITIAL, acts), Entity.Orders, Feed(chain), Feed(Blind(chain)), id)
  }

  ghost function BlindHeights(acts: seq<Action>): nat -> bool
    requires ValidRun(WELL_BEHAVED, INITIAL, acts)
  {
    (h: nat) => WentBlind(After(WELL_BEHAVED, INITIAL, acts), Entity.Orders, h)
  }

  ghost function SwapSeen(acts: seq<Action>, chain: Chain, id: string): nat -> bool
    requires ValidRun(WELL_BEHAVED, INITIAL, acts)
  {
    (h: nat) => Swapped(chain, id)(h) && SawEvents(After(WELL_BEHAVED, INITIAL, acts), Entity.Orders, h)
  }

  /** The heights at which an order in the book is written: it is new, its terms moved, or a swap of it was seen. */
  function Moved(at: nat -> Option<Order>, seen: nat -> bool): nat -> bool {
    (h: nat) => MovedAt(at, seen, h)
  }

  predicate MovedAt(at: nat -> Option<Order>, seen: nat -> bool, h: nat) {
    h >= 1 && at(h).Some? && (at(h - 1).None? || at(h - 1).value.terms != at(h).value.terms || seen(h))
  }

  /** An order that leaves gets a canceled row unless its swap was seen by every attempt. */
  function LeavesCanceled(at: nat -> Option<Order>, swapped: nat -> bool, blind: nat -> bool): nat -> bool {
    (h: nat) => CanceledFrom(at, swapped, blind, h)
  }

  predicate CanceledFrom(at: nat -> Option<Order>, swapped: nat -> bool, blind: nat -> bool, h: nat) {
    h >= 1 && LeftCanceled(at(h - 1), at(h), swapped(h), blind(h))
  }

  predicate LeftCanceled(before: Option<Order>, now: Option<Order>, swapped: bool, blind: bool) {
    before.Some? && now.None? && (!swapped || blind)
  }

  /** What is shown at one height, where a swap was seen by some attempt and another may have gone blind. */
  ghost predicate ShowsHere(
    before: Option<Order>, now: Option<Order>, swapped: bool, seen: bool, blind: bool, row: Option<Row>, height: nat)
  {
    match now
    case None =>
      row == if LeftCanceled(before, now, swapped, blind) then Some(RowOf(before.value, Canceled, height)) else None
    case Some(c) =>
      && (row.Some? <==> before.None? || before.value.terms != c.terms || seen)
      && (row.Some? ==> row == Some(RowOf(c, Open, height)) || row == Some(RowOf(c, Complete, height)))
  }

  ghost predicate Shows(
    at: nat -> Option<Order>, swapped: nat -> bool, seen: nat -> bool, blind: nat -> bool, row: Option<Row>, height: nat)
    requires height >= 1
  {
    ShowsHere(at(height - 1), at(height), swapped(height), seen(height), blind(height), row, height)
  }

  lemma ShownShows(
    before: Option<Order>, now: Option<Order>, swapped: bool, saw: bool, blind: bool, last: bool, height: nat)
    requires saw || blind
    ensures ShowsHere(before, now, swapped, swapped && saw, blind,
                      Shown(RowFor(before, now, swapped, height), RowFor(before, now, false, height), saw, blind, last), height)
  {
  }

  lemma BlindRow(chain: Chain, id: string, height: nat)
    requires chain.Valid() && height >= 1
    ensures Follows(At(chain, id), (h: nat) => false, Emitted(Feed(Blind(chain)), id)(height), height)
  {
    RowWritten(Blind(chain), id, height);
    assert At(Blind(chain), id)(height) == At(chain, id)(height);
    assert At(Blind(chain), id)(height - 1) == At(chain, id)(height - 1);
    assert !Swapped(Blind(chain), id)(height);
  }

  lemma StoredShows(acts: seq<Action>, chain: Chain, id: string, height: nat)
    requires chain.Valid() && height >= 1 && ValidRun(WELL_BEHAVED, INITIAL, acts)
    requires height in After(WELL_BEHAVED, INITIAL, acts).log
    ensures Shows(At(chain, id), Swapped(chain, id), SwapSeen(acts, chain, id), BlindHeights(acts),
                  StoredRows(acts, chain, id)(height), height)
  {
    var s := After(WELL_BEHAVED, INITIAL, acts);
    StoredIs(acts, Entity.Orders, Feed(chain), Feed(Blind(chain)), id, height);
    RowWritten(chain, id, height);
    BlindRow(chain, id, height);
    ShownShows(At(chain, id)(height - 1), At(chain, id)(height), Swapped(chain, id)(height),
               SawEvents(s, Entity.Orders, height), WentBlind(s, Entity.Orders, height),
               LastSighted(Contents(s.production, Slot(Entity.Orders, height))), height);
  }

  /** The status shown at a recorded height for an order in the book: complete exactly if its swap was seen, and no
      blind attempt has put an open row over the complete one. */
  lemma StoredStatus(acts: seq<Action>, chain: Chain, id: string, height: nat)
    requires chain.Valid() && height >= 1 && ValidRun(WELL_BEHAVED, INITIAL, acts)
    requires height in After(WELL_BEHAVED, INITIAL, acts).log && At(chain, id)(height).Some?
    ensures
      var s, row := After(WELL_BEHAVED, INITIAL, acts), StoredRows(acts, chain, id)(height);
      var before, now := At(chain, id)(height - 1), At(chain, id)(height).value;
      var moved := before.None? || before.value.terms != now.terms;
      var seen := id != "" && id in chain.swaps(height) && SawEvents(s, Entity.Orders, height);
      var covered := moved && WentBlind(s, Entity.Orders, height)
                     && !LastSighted(Contents(s.production, Slot(Entity.Orders, height)));
      row == if seen && !covered then Some(Row(Order(now.id, now.committee % 65536, now.terms), Complete, height))
             else if moved then Some(Row(Order(now.id, now.committee % 65536, now.terms), Open, height))
             else None
  {
    StoredIs(acts, Entity.Orders, Feed(chain), Feed(Blind(chain)), id, height);
    RowWritten(chain, id, height);
    BlindRow(chain, id, height);
    SwappedMeans(chain, id, height);
  }

  function Absent(at: nat -> Option<Order>): nat -> bool {
    (h: nat) => at(h).None?
  }

  ghost predicate CanceledAt(at: nat -> Option<Order>, leaves: nat -> bool, height: nat) {
    Since(leaves, Absent(at), height)
  }

  ghost predicate Right(at: nat -> Option<Order>, leaves: nat -> bool, row: Option<Row>, height: nat) {
    && (at(height).Some? ==> row.Some? && row.value.order.terms == at(height).value.terms)
    && (row.Some? && row.value.status == Canceled <==> CanceledAt(at, leaves, height))
  }

  lemma CanceledStep(at: nat -> Option<Order>, leaves: nat -> bool, height: nat)
    requires height >= 1
    requires (leaves(height) ==> at(height).None?) && (leaves(height - 1) ==> at(height - 1).None?)
    ensures CanceledAt(at, leaves, height) <==> leaves(height) || (at(height).None? && CanceledAt(at, leaves, height - 1))
    ensures CanceledAt(at, leaves, height - 1) ==> at(height - 1).None?
  {
  }

  lemma RightStep(
    at: nat -> Option<Order>, swapped: nat -> bool, seen: nat -> bool, blind: nat -> bool,
    written: Option<Row>, row: Option<Row>, height: nat)
    requires height >= 1 && Shows(at, swapped, seen, blind, written, height)
    ensures
      var leaves := LeavesCanceled(at, swapped, blind);
      && (written.Some? ==> Right(at, leaves, written, height))
      && (written.None? && Right(at, leaves, row, height - 1) ==> Right(at, leaves, row, height))
  {
    var leaves := LeavesCanceled(at, swapped, blind);
    WrittenHere(at(height - 1), at(height), swapped(height), seen(height), blind(height), written, height);
    CanceledStep(at, leaves, height);
    RightHere(at, leaves, written, row, height);
  }

  /** What is shown, as far as Right needs it. */
  lemma WrittenHere(
    before: Option<Order>, now: Option<Order>, swapped: bool, seen: bool, blind: bool, written: Option<Row>, height: nat)
    requires ShowsHere(before, now, swapped, seen, blind, written, height)
    ensures now.None? ==>
              && (written.Some? <==> LeftCanceled(before, now, swapped, blind))
              && (written.Some? ==> written.value.status == Canceled)
    ensures now.Some? ==>
              && (written.Some? ==> written.value.order.terms == now.value.terms && written.value.status != Canceled)
              && (written.None? ==> before.Some? && before.value.terms == now.value.terms)
  {
  }

  lemma RightHere(at: nat -> Option<Order>, leaves: nat -> bool, written: Option<Row>, row: Option<Row>, height: nat)
    requires height >= 1 && (leaves(height) ==> at(height).None? && at(height - 1).Some?)
    requires at(height).None? ==>
               (written.Some? <==> leaves(height)) && (written.Some? ==> written.value.status == Canceled)
    requires at(height).Some? ==>
               (written.Some? ==> written.value.order.terms == at(height).value.terms && written.value.status != Canceled)
               && (written.None? ==> at(height - 1).Some? && at(height - 1).value.terms == at(height).value.terms)
    requires CanceledAt(at, leaves, height) <==> leaves(height) || (at(height).None? && CanceledAt(at, leaves, height - 1))
    requires CanceledAt(at, leaves, height - 1) ==> at(height - 1).None?
    ensures written.Some? ==> Right(at, leaves, written, height)
    ensures written.None? && Right(at, leaves, row, height - 1) ==> Right(at, leaves, row, height)
  {
  }

  lemma NewestRight(
    at: nat -> Option<Order>, swapped: nat -> bool, seen: nat -> bool, blind: nat -> bool, emit: nat -> Option<Row>,
    height: nat)
    requires at(0).None? && emit(0).None?
    requires forall h :: 1 <= h <= height ==> Shows(at, swapped, seen, blind, emit(h), h)
    ensures Right(at, LeavesCanceled(at, swapped, blind), Newest(emit, height), height)
  {
    var leaves := LeavesCanceled(at, swapped, blind);
    var right := (row: Option<Row>, h: nat) => Right(at, leaves, row, h);
    forall h | 1 <= h <= height && emit(h).Some? ensures right(emit(h), h) {
      RightStep(at, swapped, seen, blind, emit(h), None, h);
    }
    forall h, o | 1 <= h <= height && emit(h).None? && right(o, h - 1) ensures right(o, h) {
      RightStep(at, swapped, seen, blind, emit(h), o, h);
    }
    Compaction(emit, right, height);
  }

  lemma RightReads(at: nat -> Option<Order>, leaves: nat -> bool, row: Option<Row>, height: nat)
    requires Right(at, leaves, row, height) && (leaves(height) ==> at(height).None?)
    ensures at(height).Some? ==> row.Some? && row.value.order.terms == at(height).value.terms && row.value.status != Canceled
    ensures row.Some? && row.value.status == Canceled <==>
              exists g: nat :: SinceFrom(leaves, Absent(at), g, height)
  {
    SinceMeans(leaves, Absent(at), height);
  }

  lemma StoredShowsAll(acts: seq<Action>, chain: Chain, id: string, height: nat)
    requires chain.Valid() && Indexed(acts, height)
    ensures StoredRows(acts, chain, id)(0).None?
    ensures forall h :: 1 <= h <= height ==>
              Shows(At(chain, id), Swapped(chain, id), SwapSeen(acts, chain, id), BlindHeights(acts),
                    StoredRows(acts, chain, id)(h), h)
  {
    assert Feed(chain)(0) == Feed(Blind(chain))(0) == map[];
    StoredAtZero(After(WELL_BEHAVED, INITIAL, acts), Entity.Orders, Feed(chain), Feed(Blind(chain)), id);
    forall h | 1 <= h <= height
      ensures Shows(At(chain, id), Swapped(chain, id), SwapSeen(acts, chain, id), BlindHeights(acts),
                    StoredRows(acts, chain, id)(h), h)
    {
      StoredShows(acts, chain, id, h);
    }
  }

  /** In every run, for an order in the book the newest row has all its terms; and the newest row is a canceled one exactly
      when the order left the book at some height g without a swap event, or with one that some attempt did not see, and
      has been absent since. */
  lemma OrderBookRefinement(acts: seq<Action>, chain: Chain, id: string, height: nat)
    requires chain.Valid() && Indexed(acts, height)
    ensures
      var row, at := Newest(StoredRows(acts, chain, id), height), At(chain, id);
      && (at(height).Some? ==> row.Some? && row.value.order.terms == at(height).value.terms && row.value.status != Canceled)
      && (row.Some? && row.value.status == Canceled <==>
            exists g: nat :: SinceFrom(LeavesCanceled(at, Swapped(chain, id), BlindHeights(acts)), Absent(at), g, height))
  {
    var at, leaves := At(chain, id), LeavesCanceled(At(chain, id), Swapped(chain, id), BlindHeights(acts));
    StoredShowsAll(acts, chain, id, height);
    NewestRight(at, Swapped(chain, id), SwapSeen(acts, chain, id), BlindHeights(acts), StoredRows(acts, chain, id), height);
    RightReads(at, leaves, Newest(StoredRows(acts, chain, id), height), height);
  }

  /** An order that is filled and leaves the book in the same block gets no row there, and readers keep seeing the row of
      the height before, exactly when every attempt saw the swap; otherwise it reads canceled there. */
  lemma FilledAndRemovedGetsNoRow(acts: seq<Action>, chain: Chain, id: string, height: nat)
    requires chain.Valid() && Indexed(acts, height) && height >= 1
    requires At(chain, id)(height - 1).Some? && At(chain, id)(height).None? && Swapped(chain, id)(height)
    ensures
      var stored := StoredRows(acts, chain, id);
      && (stored(height) == None <==> !BlindHeights(acts)(height))
      && (stored(height) == None ==> Newest(stored, height) == Newest(stored, height - 1))
      && (stored(height) != None ==>
            Newest(stored, height) == Some(RowOf(At(chain, id)(height - 1).value, Canceled, height)))
  {
    StoredShows(acts, chain, id, height);
    NewestHere(StoredRows(acts, chain, id), height);
  }

  lemma NewestHere(emit: nat -> Option<Row>, height: nat)
    requires height >= 1
    ensures Newest(emit, height) == if emit(height).Some? then emit(height) else Newest(emit, height - 1)
  {
  }

  /** A filled order can read canceled in the best of environments: a cleanup between a reindex's events and its orders
      is enough, whatever the chain and the height. */
  lemma FilledOrderReadsCanceled(chain: Chain, id: string, height: nat) returns (acts: seq<Action>)
    requires chain.Valid() && height >= 1
    requires At(chain, id)(height - 1).Some? && At(chain, id)(height).None? && Swapped(chain, id)(height)
    ensures ValidRun(PROMPT, INITIAL, acts) && ValidRun(WELL_BEHAVED, INITIAL, acts)
    ensures height in After(PROMPT, INITIAL, acts).log
    ensures StoredRows(acts, chain, id)(height) == Some(RowOf(At(chain, id)(height - 1).value, Canceled, height))
  {
    acts := ReindexGoesBlind(height);
    SerialIsWellBehaved(PROMPT, INITIAL, acts);
    var s := After(WELL_BEHAVED, INITIAL, acts);
    LatestIn(s.production, Slot(Entity.Orders, height));
    assert WentBlind(s, Entity.Orders, height);
    StoredShows(acts, chain, id, height);
  }

  lemma LatestIn(t: Table, slot: Slot)
    ensures forall c :: c in Latest(t, slot) ==> c in Contents(t, slot)
  {
  }

  // ---------------------------------------------------------------- the committee

  /** The newest row of an order in the book is the order as of the last height it was written. */
  lemma NewestOrder(acts: seq<Action>, chain: Chain, id: string, height: nat)
    requires chain.Valid() && Indexed(acts, height) && At(chain, id)(height).Some?
    ensures
      var g := LastTime(Moved(At(chain, id), SwapSeen(acts, chain, id)), height);
      var row := Newest(StoredRows(acts, chain, id), height);
      && 1 <= g <= height && At(chain, id)(g).Some? && row.Some?
      && row.value.height == g && row.value.order == RowOf(At(chain, id)(g).value, Open, g).order
  {
    StoredShowsAll(acts, chain, id, height);
    NewestIsMoved(At(chain, id), Swapped(chain, id), SwapSeen(acts, chain, id), BlindHeights(acts),
                  StoredRows(acts, chain, id), height);
  }

  /** By induction over the heights for which the order has been in the book. */
  lemma {:induction false} NewestIsMoved(
    at: nat -> Option<Order>, swapped: nat -> bool, seen: nat -> bool, blind: nat -> bool, emit: nat -> Option<Row>, height: nat)
    requires at(0).None? && emit(0).None? && at(height).Some?
    requires forall h :: 1 <= h <= height ==> Shows(at, swapped, seen, blind, emit(h), h)
    ensures
      var g := LastTime(Moved(at, seen), height);
      && 1 <= g <= height && at(g).Some? && Newest(emit, height).Some?
      && Newest(emit, height).value.height == g && Newest(emit, height).value.order == RowOf(at(g).value, Open, g).order
  {
    assert Shows(at, swapped, seen, blind, emit(height), height);
    if !Moved(at, seen)(height) {
      NewestIsMoved(at, swapped, seen, blind, emit, height - 1);
    }
  }

  /** A committee change alone writes no row: the committee a reader sees is right exactly when it is, in the 16 bits
      stored, the one the order had when it was last written. */
  lemma CommitteeRecoveredIff(acts: seq<Action>, chain: Chain, id: string, height: nat)
    requires chain.Valid() && Indexed(acts, height) && At(chain, id)(height).Some?
    ensures
      var at := At(chain, id);
      var g := LastTime(Moved(at, SwapSeen(acts, chain, id)), height);
      var row := Newest(StoredRows(acts, chain, id), height);
      && at(g).Some? && row.Some?
      && (row.value.order.committee == Low16(at(height).value.committee)
          <==> Low16(at(g).value.committee) == Low16(at(height).value.committee))
  {
    NewestOrder(acts, chain, id, height);
  }

  const TERMS := Terms("", 5, 7, "", "", "", 0, "")

  function MovingBookAt(h: nat): seq<Order> {
    [Order("a", if h <= 1 then 1 else 2, TERMS)]
  }

  /** An order that moves from committee 1 to committee 2 at height 2 with its terms unchanged. */
  function MovingBook(): Chain {
    Chain((h: nat) => MovingBookAt(h), (h: nat) => [])
  }

  lemma MovingOrder(h: nat)
    requires h >= 1
    ensures MovingBook().Valid() && At(MovingBook(), "a")(h) == Some(Order("a", if h <= 1 then 1 else 2, TERMS))
    ensures !Swapped(MovingBook(), "a")(h)
  {
    assert MovingBookAt(h)[..0] == [];
  }

  /** There every run leaves readers of height 2 with committee 1. */
  lemma CommitteeNotRecovered(acts: seq<Action>)
    requires Indexed(acts, 2)
    ensures
      var row := Newest(StoredRows(acts, MovingBook(), "a"), 2);
      && At(MovingBook(), "a")(2) == Some(Order("a", 2, TERMS))
      && row.Some? && row.value.order.committee == 1
  {
    var at, seen := At(MovingBook(), "a"), SwapSeen(acts, MovingBook(), "a");
    MovingOrder(1);
    MovingOrder(2);
    assert Moved(at, seen)(1) && !Moved(at, seen)(2);
    assert LastTime(Moved(at, seen), 2) == LastTime(Moved(at, seen), 1) == 1;
    NewestOrder(acts, MovingBook(), "a", 2);
  }
}
