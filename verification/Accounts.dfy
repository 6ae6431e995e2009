/** IndexAccounts: a balance row is written when the balance differs from the
    previous height, or when a reward or slash event names the account. */
module Accounts {
  import opened CommitProtocol
  import opened Lists
  import opened Snapshots

  datatype Account = Account(address: string, amount: nat)
  datatype EventKind = Reward | Slash
  datatype Event = Event(kind: EventKind, address: string, amount: nat)
  datatype Row = Row(address: string, amount: nat, rewards: nat, slashes: nat, height: nat)

  /** What RPC and the staged events say at each height. */
  datatype Chain = Chain(accounts: nat -> seq<Account>, events: nat -> seq<Event>) {
    ghost predicate Valid() {
      forall h :: Distinct(accounts(h), AddressOf)
    }
  }

  function AddressOf(a: Account): string { a.address }

  function RowAddress(r: Row): string { r.address }

  function EventAddress(e: Event): string { e.address }

  function OfKind(kind: EventKind): Event -> Option<Event> {
    (e: Event) => if e.kind == kind then Some(e) else None
  }

  function EventAmount(events: map<string, Event>, address: string): nat {
    if address in events then events[address].amount else 0
  }

  /** The row for a current account, given the previous balances and the event maps; the default balance is 0. */
  function Change(prev: map<string, Account>, rewards: map<string, Event>, slashes: map<string, Event>, height: nat)
    : Account -> Option<Row>
  {
    (c: Account) =>
      var before := if c.address in prev then prev[c.address].amount else 0;
      var reward, slash := EventAmount(rewards, c.address), EventAmount(slashes, c.address);
      if c.amount != before || reward > 0 || slash > 0
      then Some(Row(c.address, c.amount, reward, slash, height))
      else None
  }

  function ChangeAt(chain: Chain, height: nat): Account -> Option<Row> {
    Change(MapBy(Previous(chain.accounts, height), AddressOf),
           MapBy(Collect(chain.events(height), OfKind(Reward)), EventAddress),
           MapBy(Collect(chain.events(height), OfKind(Slash)), EventAddress),
           height)
  }

  function RowsAt(chain: Chain, height: nat): seq<Row> {
    if height == 0 then [] else Collect(chain.accounts(height), ChangeAt(chain, height))
  }

  method IndexAccounts(chain: Chain, height: nat) returns (rows: seq<Row>)
    requires height >= 1
    ensures rows == RowsAt(chain, height)
  {
    var prev := IndexBy(Previous(chain.accounts, height), AddressOf);
    var rewards := IndexSelected(chain.events(height), OfKind(Reward), EventAddress);
    var slashes := IndexSelected(chain.events(height), OfKind(Slash), EventAddress);
    rows := CollectRows(chain.accounts(height), Change(prev, rewards, slashes, height));
  }

  // ---------------------------------------------------------------- refinement

  function Feed(chain: Chain): nat -> map<string, Row> {
    (h: nat) => MapBy(RowsAt(chain, h), RowAddress)
  }

  /** What RPC says about one address over time. */
  function At(chain: Chain, address: string): nat -> Option<Account> {
    (h: nat) => if h == 0 then None else Get(MapBy(chain.accounts(h), AddressOf), address)
  }

  /** The amount of the last event of a kind for an address, 0 without one. */
  function Received(chain: Chain, kind: EventKind, address: string, height: nat): nat {
    EventAmount(MapBy(Collect(chain.events(height), OfKind(kind)), EventAddress), address)
  }

  function Rewarded(chain: Chain, address: string): nat -> bool {
    (h: nat) => Received(chain, Reward, address, h) > 0 || Received(chain, Slash, address, h) > 0
  }

  function Balance(account: Option<Account>): nat {
    match account case None => 0 case Some(a) => a.amount
  }

  /** The account is gone at g although it had a positive balance one height earlier. */
  function Leaves(at: nat -> Option<Account>): nat -> bool {
    (g: nat) => g >= 2 && Balance(at(g - 1)) > 0 && at(g).None?
  }

  /** Still absent, or back with balance zero and no reward or slash. */
  function StaysQuiet(at: nat -> Option<Account>, rewarded: nat -> bool): nat -> bool {
    (h: nat) => Balance(at(h)) == 0 && (at(h).Some? ==> !rewarded(h))
  }

  ghost predicate Vanished(at: nat -> Option<Account>, rewarded: nat -> bool, height: nat) {
    Since(Leaves(at), StaysQuiet(at, rewarded), height)
  }

  function Amount(row: Option<Row>): nat {
    match row case None => 0 case Some(r) => r.amount
  }

  /** The change test, seen for one address: its row is the current balance. */
  ghost predicate Follows(at: nat -> Option<Account>, rewarded: nat -> bool, row: Option<Row>, height: nat)
    requires height >= 1
  {
    && (row.Some? <==> at(height).Some? && (Balance(at(height)) != Balance(at(height - 1)) || rewarded(height)))
    && (row.Some? ==> row.value.amount == Balance(at(height)))
  }

  /** The account a list has under an address. */
  lemma AtListed(chain: Chain, address: string, height: nat, a: Account)
    requires chain.Valid() && height >= 1
    ensures At(chain, address)(height) == Some(a) <==> a in chain.accounts(height) && a.address == address
  {
    MapByFinds(chain.accounts(height), AddressOf, address);
    if a in chain.accounts(height) {
      DistinctFinds(chain.accounts(height), AddressOf, a);
    }
  }

  predicate LastPayment(es: seq<Event>, kind: EventKind, address: string, i: nat)
    requires i < |es|
  {
    && es[i].kind == kind && es[i].address == address
    && forall j :: i < j < |es| ==> !(es[j].kind == kind && es[j].address == address)
  }

  /** What is received is the amount of the last event that pays it, and nothing without one. */
  lemma ReceivedMeans(chain: Chain, kind: EventKind, address: string, height: nat)
    ensures
      var es, received := chain.events(height), Received(chain, kind, address, height);
      && ((forall e :: e in es ==> !(e.kind == kind && e.address == address)) ==> received == 0)
      && (forall i :: 0 <= i < |es| && LastPayment(es, kind, address, i) ==> received == es[i].amount)
  {
    SelectedLast(chain.events(height), OfKind(kind), EventAddress, address);
    assert forall e: Event :: Selects(OfKind(kind), EventAddress, address, e) <==> e.kind == kind && e.address == address;
  }

  lemma RowWritten(chain: Chain, address: string, height: nat)
    requires chain.Valid() && height >= 1
    ensures Follows(At(chain, address), Rewarded(chain, address), Emitted(Feed(chain), address)(height), height)
    ensures
      var row := Emitted(Feed(chain), address)(height);
      row.Some? ==>
        row.value == Row(address, Balance(At(chain, address)(height)), Received(chain, Reward, address, height),
                         Received(chain, Slash, address, height), height)
  {
    CollectByKey(chain.accounts(height), ChangeAt(chain, height), AddressOf, RowAddress, address);
    MapByFinds(chain.accounts(height), AddressOf, address);
  }

  ghost predicate Right(at: nat -> Option<Account>, rewarded: nat -> bool, row: Option<Row>, height: nat) {
    if Vanished(at, rewarded, height)
    then Amount(row) > 0 && Balance(at(height)) == 0
    else Amount(row) == Balance(at(height))
  }

  lemma {:induction false} NewestRight(at: nat -> Option<Account>, rewarded: nat -> bool, emit: nat -> Option<Row>, height: nat)
    requires at(0).None? && emit(0).None?
    requires forall h :: 1 <= h <= height ==> Follows(at, rewarded, emit(h), h)
    ensures Right(at, rewarded, Newest(emit, height), height)
  {
    var right := (row: Option<Row>, h: nat) => Right(at, rewarded, row, h);
    forall h | 1 <= h <= height && emit(h).Some? ensures right(emit(h), h) {
      assert Follows(at, rewarded, emit(h), h);
      assert Vanished(at, rewarded, h - 1) ==> Balance(at(h - 1)) == 0;
    }
    forall h, o | 1 <= h <= height && emit(h).None? && right(o, h - 1) ensures right(o, h) {
      assert Follows(at, rewarded, emit(h), h);
    }
    Compaction(emit, right, height);
  }

  /** The same chain as seen by an activity that finds the staged events gone. */
  function Blind(chain: Chain): Chain {
    chain.(events := (h: nat) => [])
  }

  /** The rows production shows, whichever attempts saw the events. */
  ghost function StoredRows(acts: seq<Action>, chain: Chain, address: string): nat -> Option<Row>
    requires ValidRun(WELL_BEHAVED, INITIAL, acts)
  {
    Stored(After(WELL_BEHAVED, INITIAL, acts), Entity.Accounts, Feed(chain), Feed(Blind(chain)), address)
  }

  /** A reward or slash that some promoted attempt saw. */
  ghost function RewardSeen(acts: seq<Action>, chain: Chain, address: string): nat -> bool
    requires ValidRun(WELL_BEHAVED, INITIAL, acts)
  {
    (h: nat) => Rewarded(chain, address)(h) && SawEvents(After(WELL_BEHAVED, INITIAL, acts), Entity.Accounts, h)
  }

  lemma BlindRow(chain: Chain, address: string, height: nat)
    requires chain.Valid() && height >= 1
    ensures Follows(At(chain, address), (h: nat) => false, Emitted(Feed(Blind(chain)), address)(height), height)
  {
    RowWritten(Blind(chain), address, height);
    assert At(Blind(chain), address)(height) == At(chain, address)(height);
    assert At(Blind(chain), address)(height - 1) == At(chain, address)(height - 1);
    assert !Rewarded(Blind(chain), address)(height);
  }

  /** What is shown at a recorded height follows the balance and the rewards that were seen. */
  lemma StoredFollows(acts: seq<Action>, chain: Chain, address: string, height: nat)
    requires chain.Valid() && height >= 1 && ValidRun(WELL_BEHAVED, INITIAL, acts)
    requires height in After(WELL_BEHAVED, INITIAL, acts).log
    ensures Follows(At(chain, address), RewardSeen(acts, chain, address), StoredRows(acts, chain, address)(height), height)
  {
    StoredIs(acts, Entity.Accounts, Feed(chain), Feed(Blind(chain)), address, height);
    RowWritten(chain, address, height);
    BlindRow(chain, address, height);
  }

  /** The newest row gives the balance at every recorded height, in every run, except exactly for accounts that left at
      some height g with a positive balance and have since been absent, or back at zero without a reward or slash that
      was seen: no row is written on removal, nor on a reappearance at zero. */
  lemma AccountRefinement(acts: seq<Action>, chain: Chain, address: string, height: nat)
    requires chain.Valid() && Indexed(acts, height)
    ensures
      var at, seen := At(chain, address), RewardSeen(acts, chain, address);
      Amount(Newest(StoredRows(acts, chain, address), height)) == Balance(at(height))
      <==> !exists g: nat :: SinceFrom(Leaves(at), StaysQuiet(at, seen), g, height)
  {
    var at, seen := At(chain, address), RewardSeen(acts, chain, address);
    forall h | 1 <= h <= height ensures Follows(at, seen, StoredRows(acts, chain, address)(h), h) {
      StoredFollows(acts, chain, address, h);
    }
    assert Feed(chain)(0) == Feed(Blind(chain))(0) == map[];
    StoredAtZero(After(WELL_BEHAVED, INITIAL, acts), Entity.Accounts, Feed(chain), Feed(Blind(chain)), address);
    NewestRight(at, seen, StoredRows(acts, chain, address), height);
    SinceMeans(Leaves(at), StaysQuiet(at, seen), height);
  }

  /** In particular an account present with a nonzero balance is always read correctly. */
  lemma PresentBalanceIsRead(acts: seq<Action>, chain: Chain, account: Account, height: nat)
    requires chain.Valid() && Indexed(acts, height) && height >= 1
    requires account in chain.accounts(height) && account.amount > 0
    ensures Amount(Newest(StoredRows(acts, chain, account.address), height)) == account.amount
  {
    DistinctFinds(chain.accounts(height), AddressOf, account);
    AccountRefinement(acts, chain, account.address, height);
    var at, seen := At(chain, account.address), RewardSeen(acts, chain, account.address);
    assert forall g: nat :: SinceFrom(Leaves(at), StaysQuiet(at, seen), g, height) ==>
             StaysQuiet(at, seen)(height) || Leaves(at)(height);
  }
}
