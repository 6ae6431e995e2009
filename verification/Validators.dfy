/** The validator part of IndexValidators: validator rows with change detection,
    and one junction row per committee of every changed validator. */
module Validators {
  import opened CommitProtocol
  import opened Lists
  import opened Snapshots

  datatype Profile = Profile(
    publicKey: string,
    netAddress: string,
    stakedAmount: nat,
    output: string,
    maxPausedHeight: nat,
    unstakingHeight: nat,
    delegate: bool,
    compound: bool)

  datatype Validator = Validator(address: string, profile: Profile, committees: seq<nat>)
  datatype Status = Active | Paused | Unstaking
  datatype EventKind = Pause | BeginUnstaking | FinishUnstaking | Slash | Reward
  datatype Event = Event(kind: EventKind, address: string)

  datatype Row = Row(validator: Validator, status: Status, height: nat)
  datatype Membership = Membership(committee: nat, address: string)
  datatype Junction = Junction(
    key: Membership, stakedAmount: nat, status: Status, delegate: bool, compound: bool,
    subsidized: bool, retired: bool, height: nat)

  datatype Chain = Chain(
    validators: nat -> seq<Validator>,
    events: nat -> seq<Event>,
    subsidized: nat -> seq<nat>,
    retired: nat -> seq<nat>)
  {
    ghost predicate Valid() {
      forall h :: Distinct(validators(h), AddressOf)
    }

    /** No committee list names a committee twice. */
    ghost predicate NoRepeats() {
      forall h, v :: v in validators(h) ==> NoDuplicates(v.committees)
    }
  }

  function AddressOf(v: Validator): string { v.address }

  function RowAddress(r: Row): string { r.validator.address }

  function JunctionKey(j: Junction): Membership { j.key }

  function EventAddress(e: Event): string { e.address }

  /** Unstaking wins over paused. */
  function DeriveStatus(p: Profile): (status: Status)
    ensures status == Unstaking <==> p.unstakingHeight > 0
    ensures status == Paused <==> p.unstakingHeight == 0 && p.maxPausedHeight > 0
  {
    if p.unstakingHeight > 0 then Unstaking
    else if p.maxPausedHeight > 0 then Paused
    else Active
  }

  // ---------------------------------------------------------------- comparing committee lists

  ghost predicate NoDuplicates(a: seq<nat>) {
    forall i, j :: 0 <= i < j < |a| ==> a[i] != a[j]
  }

  function SetOf(a: seq<nat>): set<nat> {
    set c | c in a
  }

  /** Same length, and every member of b occurs in a. */
  predicate EqualCommittees(a: seq<nat>, b: seq<nat>) {
    |a| == |b| && forall c :: c in b ==> c in a
  }

  method CompareCommittees(a: seq<nat>, b: seq<nat>) returns (equal: bool)
    ensures equal == EqualCommittees(a, b)
  {
    if |a| != |b| {
      return false;
    }
    var members: map<nat, bool> := map[];
    for i := 0 to |a|
      invariant forall c :: c in members <==> c in a[..i]
      invariant forall c :: c in members ==> members[c]
    {
      members := members[a[i] := true];
    }
    assert a[..|a|] == a;
    for i := 0 to |b|
      invariant forall j :: 0 <= j < i ==> b[j] in a
    {
      if !(b[i] in members && members[b[i]]) {
        return false;
      }
    }
    return true;
  }

  lemma {:induction false} SetSize(a: seq<nat>)
    ensures |SetOf(a)| <= |a|
    ensures |SetOf(a)| == |a| <==> NoDuplicates(a)
  {
    if a != [] {
      var t, x := a[..|a| - 1], a[|a| - 1];
      SetSize(t);
      assert a == t + [x];
      if x in t {
        assert SetOf(a) == SetOf(t);
        var j :| 0 <= j < |t| && t[j] == x;
        assert a[j] == a[|a| - 1];
      } else {
        assert SetOf(a) == SetOf(t) + {x};
        assert NoDuplicates(t) ==> NoDuplicates(a);
        assert NoDuplicates(a) ==> forall i, j :: 0 <= i < j < |t| ==> t[i] == a[i] && t[j] == a[j];
      }
    }
  }

  lemma SubsetOfSameSize(s: set<nat>, t: set<nat>)
    requires s <= t && |s| == |t|
    ensures s == t
  {
    assert t == s + (t - s);
  }

  /** On lists without duplicates the test is set equality: equal lengths leave no room for a missing member. */
  lemma EqualCommitteesIsSetEquality(a: seq<nat>, b: seq<nat>)
    requires NoDuplicates(a) && NoDuplicates(b)
    ensures EqualCommittees(a, b) <==> SetOf(a) == SetOf(b)
  {
    SetSize(a);
    SetSize(b);
    if EqualCommittees(a, b) {
      SubsetOfSameSize(SetOf(b), SetOf(a));
    }
    assert SetOf(a) == SetOf(b) ==> forall c :: c in b ==> c in SetOf(a);
  }

  /** With duplicates an accepted pair has equal sets exactly when both lists repeat equally many entries. */
  lemma AcceptedPairsAgreeWhen(a: seq<nat>, b: seq<nat>)
    requires EqualCommittees(a, b)
    ensures SetOf(a) == SetOf(b) <==> |a| - |SetOf(a)| == |b| - |SetOf(b)|
  {
    assert SetOf(b) <= SetOf(a);
    if |SetOf(a)| == |SetOf(b)| {
      SubsetOfSameSize(SetOf(b), SetOf(a));
    }
  }

  lemma DuplicatesFoolTheTest()
    ensures EqualCommittees([1, 2], [1, 1]) && SetOf([1, 2]) != SetOf([1, 1])
  {
    assert 2 in SetOf([1, 2]) && 2 !in SetOf([1, 1]);
  }

  // ---------------------------------------------------------------- rows

  function OfKind(kind: EventKind): Event -> Option<Event> {
    (e: Event) => if e.kind == kind then Some(e) else None
  }

  function EventsAt(chain: Chain, kind: EventKind, height: nat): map<string, Event> {
    MapBy(Collect(chain.events(height), OfKind(kind)), EventAddress)
  }

  /** Events that force a row; a finished unstaking does not. */
  predicate HasEvent(pauses: map<string, Event>, begins: map<string, Event>, slashes: map<string, Event>,
                     rewards: map<string, Event>, address: string)
  {
    address in pauses || address in begins || address in slashes || address in rewards
  }

  predicate Flagged(chain: Chain, address: string, height: nat) {
    HasEvent(EventsAt(chain, Pause, height), EventsAt(chain, BeginUnstaking, height), EventsAt(chain, Slash, height),
             EventsAt(chain, Reward, height), address)
  }

  /** A validator is flagged by an event that names it, of one of four kinds. */
  lemma FlaggedMeans(chain: Chain, address: string, height: nat)
    ensures Flagged(chain, address, height) <==>
              exists e :: e in chain.events(height) && e.address == address
                          && (e.kind == Pause || e.kind == BeginUnstaking || e.kind == Slash || e.kind == Reward)
  {
    KindIn(chain, Pause, address, height);
    KindIn(chain, BeginUnstaking, address, height);
    KindIn(chain, Slash, address, height);
    KindIn(chain, Reward, address, height);
  }

  lemma KindIn(chain: Chain, kind: EventKind, address: string, height: nat)
    ensures address in EventsAt(chain, kind, height) <==>
              exists e :: e in chain.events(height) && e.address == address && e.kind == kind
  {
    var chosen := Collect(chain.events(height), OfKind(kind));
    MapByFinds(chosen, EventAddress, address);
    forall e: Event ensures e in chosen <==> e in chain.events(height) && e.kind == kind {
      CollectIn(chain.events(height), OfKind(kind), e);
    }
  }

  function RowOf(v: Validator, height: nat): Row {
    Row(v, DeriveStatus(v.profile), height)
  }

  function Change(prev: map<string, Validator>, flagged: string -> bool, height: nat): Validator -> Option<Row> {
    (c: Validator) =>
      if c.address !in prev || flagged(c.address) || c.profile != prev[c.address].profile
         || !EqualCommittees(c.committees, prev[c.address].committees)
      then Some(RowOf(c, height)) else None
  }

  function FlaggedAt(chain: Chain, height: nat): string -> bool {
    (address: string) => Flagged(chain, address, height)
  }

  function JunctionOf(r: Row, committee: nat, subsidized: seq<nat>, retired: seq<nat>): Junction {
    Junction(Membership(committee, r.validator.address), r.validator.profile.stakedAmount, r.status,
             r.validator.profile.delegate, r.validator.profile.compound,
             committee in subsidized, committee in retired, r.height)
  }

  function JunctionsOf(subsidized: seq<nat>, retired: seq<nat>): Row -> seq<Junction> {
    (r: Row) =>
      var cs := r.validator.committees;
      seq(|cs|, i requires 0 <= i < |cs| => JunctionOf(r, cs[i], subsidized, retired))
  }

  function RowsAt(chain: Chain, height: nat): seq<Row> {
    if height == 0 then [] else
    var prev := MapBy(Previous(chain.validators, height), AddressOf);
    Collect(chain.validators(height), Change(prev, FlaggedAt(chain, height), height))
  }

  function JunctionRowsAt(chain: Chain, height: nat): seq<Junction> {
    Flatten(RowsAt(chain, height), JunctionsOf(chain.subsidized(height), chain.retired(height)))
  }

  method IndexValidators(chain: Chain, height: nat) returns (rows: seq<Row>, junctions: seq<Junction>)
    requires height >= 1
    ensures rows == RowsAt(chain, height) && junctions == JunctionRowsAt(chain, height)
  {
    var prev := IndexBy(Previous(chain.validators, height), AddressOf);
    var pauses := IndexSelected(chain.events(height), OfKind(Pause), EventAddress);
    var begins := IndexSelected(chain.events(height), OfKind(BeginUnstaking), EventAddress);
    var slashes := IndexSelected(chain.events(height), OfKind(Slash), EventAddress);
    var rewards := IndexSelected(chain.events(height), OfKind(Reward), EventAddress);
    ghost var flagged := FlaggedAt(chain, height);
    var current := chain.validators(height);
    rows := [];
    for i := 0 to |current|
      invariant rows == Collect(current[..i], Change(prev, flagged, height))
    {
      CollectSnoc(current, i, Change(prev, flagged, height));
      var hasEvent := HasEvent(pauses, begins, slashes, rewards, current[i].address);
      assert hasEvent == flagged(current[i].address);
      var changed := ValidatorChanged(prev, current[i], hasEvent, height, flagged);
      if changed {
        rows := rows + [RowOf(current[i], height)];
      }
    }
    assert current[..|current|] == current;
    junctions := BuildJunctions(rows, chain.subsidized(height), chain.retired(height));
  }

  /** The per-validator change test; fields are compared only when no event already forces a row. */
  method ValidatorChanged(prev: map<string, Validator>, curr: Validator, hasEvent: bool, height: nat,
                          ghost flagged: string -> bool)
    returns (changed: bool)
    requires hasEvent == flagged(curr.address)
    ensures changed <==> Change(prev, flagged, height)(curr).Some?
  {
    changed := hasEvent;
    if curr.address !in prev {
      changed := true;
    } else if !hasEvent {
      var sameCommittees := CompareCommittees(curr.committees, prev[curr.address].committees);
      if curr.profile != prev[curr.address].profile || !sameCommittees {
        changed := true;
      }
    }
  }

  method BuildJunctions(rows: seq<Row>, subsidized: seq<nat>, retired: seq<nat>) returns (junctions: seq<Junction>)
    ensures junctions == Flatten(rows, JunctionsOf(subsidized, retired))
  {
    junctions := [];
    for i := 0 to |rows|
      invariant junctions == Flatten(rows[..i], JunctionsOf(subsidized, retired))
    {
      assert rows[..i + 1][..i] == rows[..i];
      junctions := junctions + JunctionsOf(subsidized, retired)(rows[i]);
    }
    assert rows[..|rows|] == rows;
  }

  // ---------------------------------------------------------------- refinement

  function Feed(chain: Chain): nat -> map<string, Row> {
    (h: nat) => MapBy(RowsAt(chain, h), RowAddress)
  }

  function JunctionFeed(chain: Chain): nat -> map<Membership, Junction> {
    (h: nat) => MapBy(JunctionRowsAt(chain, h), JunctionKey)
  }

  function At(chain: Chain, address: string): nat -> Option<Validator> {
    (h: nat) => if h == 0 then None else Get(MapBy(chain.validators(h), AddressOf), address)
  }

  /** The status a profile calls for. */
  ghost predicate StatusIs(status: Status, p: Profile) {
    && (status == Unstaking <==> p.unstakingHeight > 0)
    && (status == Paused <==> p.unstakingHeight == 0 && p.maxPausedHeight > 0)
    && (status == Active <==> p.unstakingHeight == 0 && p.maxPausedHeight == 0)
  }

  /** The validator a list has under an address. */
  lemma AtListed(chain: Chain, address: string, height: nat, v: Validator)
    requires chain.Valid() && height >= 1
    ensures At(chain, address)(height) == Some(v) <==> v in chain.validators(height) && v.address == address
  {
    MapByFinds(chain.validators(height), AddressOf, address);
    if v in chain.validators(height) {
      DistinctFinds(chain.validators(height), AddressOf, v);
    }
  }

  ghost predicate Agrees(a: Validator, b: Validator) {
    a.profile == b.profile && SetOf(a.committees) == SetOf(b.committees)
  }

  /** A present validator gets its row unless no event names it and it agrees with the height before. */
  ghost predicate Follows(at: nat -> Option<Validator>, flagged: bool, row: Option<Row>, height: nat)
    requires height >= 1
  {
    row == if at(height).None?
              || (at(height - 1).Some? && !flagged && Agrees(at(height - 1).value, at(height).value)) then None
           else Some(RowOf(at(height).value, height))
  }

  /** The row of a height for one address, from the previous and current validator. */
  lemma FeedAt(chain: Chain, address: string, height: nat)
    requires chain.Valid() && height >= 1
    ensures
      var prev := MapBy(Previous(chain.validators, height), AddressOf);
      Emitted(Feed(chain), address)(height) ==
      match Get(MapBy(chain.validators(height), AddressOf), address)
      case None => None
      case Some(v) => Change(prev, FlaggedAt(chain, height), height)(v)
  {
    var prev, flagged := MapBy(Previous(chain.validators, height), AddressOf), FlaggedAt(chain, height);
    var f := Change(prev, flagged, height);
    forall v: Validator | f(v).Some? ensures RowAddress(f(v).value) == AddressOf(v) {
      assert f(v) == Some(RowOf(v, height));
    }
    CollectByKey(chain.validators(height), f, AddressOf, RowAddress, address);
  }

  lemma RowWritten(chain: Chain, address: string, height: nat)
    requires chain.Valid() && chain.NoRepeats() && height >= 1
    ensures Follows(At(chain, address), Flagged(chain, address, height), Emitted(Feed(chain), address)(height), height)
    ensures
      var row, before, now := Emitted(Feed(chain), address)(height), At(chain, address)(height - 1), At(chain, address)(height);
      && (row.Some? <==>
            now.Some? && (before.None? || !Agrees(before.value, now.value)
                          || exists e :: e in chain.events(height) && e.address == address && e.kind != FinishUnstaking))
      && (row.Some? ==> row.value == Row(now.value, row.value.status, height) && StatusIs(row.value.status, now.value.profile))
  {
    FlaggedMeans(chain, address, height);
    var prev := MapBy(Previous(chain.validators, height), AddressOf);
    var curr := MapBy(chain.validators(height), AddressOf);
    FeedAt(chain, address, height);
    MapByFinds(chain.validators(height), AddressOf, address);
    MapByFinds(Previous(chain.validators, height), AddressOf, address);
    assert Get(prev, address) == At(chain, address)(height - 1);
    if address in prev && address in curr {
      EqualCommitteesIsSetEquality(curr[address].committees, prev[address].committees);
    }
  }

  ghost predicate Right(at: nat -> Option<Validator>, row: Option<Row>, height: nat) {
    at(height).Some? ==>
      row.Some? && Agrees(row.value.validator, at(height).value) && row.value.status == DeriveStatus(at(height).value.profile)
  }

  lemma NewestRight(at: nat -> Option<Validator>, flagged: nat -> bool, emit: nat -> Option<Row>, height: nat)
    requires at(0).None? && emit(0).None?
    requires forall h :: 1 <= h <= height ==> Follows(at, flagged(h), emit(h), h)
    ensures Right(at, Newest(emit, height), height)
  {
    var right := (row: Option<Row>, h: nat) => Right(at, row, h);
    forall h | 1 <= h <= height && emit(h).Some? ensures right(emit(h), h) {
      assert Follows(at, flagged(h), emit(h), h);
    }
    forall h, o | 1 <= h <= height && emit(h).None? && right(o, h - 1) ensures right(o, h) {
      assert Follows(at, flagged(h), emit(h), h);
    }
    Compaction(emit, right, height);
  }

  // ---------------------------------------------------------------- what production shows

  /** The same chain as seen by an activity that finds the staged events gone. */
  function Blind(chain: Chain): Chain {
    chain.(events := (h: nat) => [])
  }

  lemma BlindRow(chain: Chain, address: string, height: nat)
    requires chain.Valid() && chain.NoRepeats() && height >= 1
    ensures Follows(At(chain, address), false, Emitted(Feed(Blind(chain)), address)(height), height)
  {
    RowWritten(Blind(chain), address, height);
    assert At(Blind(chain), address)(height) == At(chain, address)(height);
    assert At(Blind(chain), address)(height - 1) == At(chain, address)(height - 1);
    assert !Flagged(Blind(chain), address, height);
  }

  ghost function StoredRows(acts: seq<Action>, chain: Chain, address: string): nat -> Option<Row>
    requires ValidRun(WELL_BEHAVED, INITIAL, acts)
  {
    Stored(After(WELL_BEHAVED, INITIAL, acts), Entity.Validators, Feed(chain), Feed(Blind(chain)), address)
  }

  /** An event names the validator and some promoted attempt saw it. */
  ghost function FlagSeen(acts: seq<Action>, chain: Chain, address: string): nat -> bool
    requires ValidRun(WELL_BEHAVED, INITIAL, acts)
  {
    (h: nat) => Flagged(chain, address, h) && SawEvents(After(WELL_BEHAVED, INITIAL, acts), Entity.Validators, h)
  }

  /** The row shown at a recorded height: it is missing only if the validator has not changed. */
  lemma StoredFollows(acts: seq<Action>, chain: Chain, address: string, height: nat)
    requires chain.Valid() && chain.NoRepeats() && height >= 1 && ValidRun(WELL_BEHAVED, INITIAL, acts)
    requires height in After(WELL_BEHAVED, INITIAL, acts).log
    ensures Follows(At(chain, address), FlagSeen(acts, chain, address)(height), StoredRows(acts, chain, address)(height), height)
  {
    StoredIs(acts, Entity.Validators, Feed(chain), Feed(Blind(chain)), address, height);
    RowWritten(chain, address, height);
    BlindRow(chain, address, height);
  }

  /** In every run, for every validator present the newest row is the validator, up to the order of its committees:
      events only force rows that repeat what is known, so attempts that miss them do no harm here. */
  lemma ValidatorRefinement(acts: seq<Action>, chain: Chain, address: string, height: nat)
    requires chain.Valid() && chain.NoRepeats() && Indexed(acts, height)
    ensures
      var row, now := Newest(StoredRows(acts, chain, address), height), At(chain, address)(height);
      now.Some? ==>
        && row.Some? && row.value.validator.profile == now.value.profile
        && SetOf(row.value.validator.committees) == SetOf(now.value.committees)
        && StatusIs(row.value.status, now.value.profile)
  {
    forall h | 1 <= h <= height
      ensures Follows(At(chain, address), FlagSeen(acts, chain, address)(h), StoredRows(acts, chain, address)(h), h)
    {
      StoredFollows(acts, chain, address, h);
    }
    assert Feed(chain)(0) == Feed(Blind(chain))(0) == map[];
    StoredAtZero(After(WELL_BEHAVED, INITIAL, acts), Entity.Validators, Feed(chain), Feed(Blind(chain)), address);
    NewestRight(At(chain, address), FlagSeen(acts, chain, address), StoredRows(acts, chain, address), height);
  }

  /** Junction rows of rows with distinct addresses: one for each committee of each row. */
  lemma JunctionsByKey(rows: seq<Row>, subsidized: seq<nat>, retired: seq<nat>, key: Membership)
    requires forall r :: r in rows ==> Get(MapBy(rows, RowAddress), RowAddress(r)) == Some(r)
    ensures
      var row := Get(MapBy(rows, RowAddress), key.address);
      Get(MapBy(Flatten(rows, JunctionsOf(subsidized, retired)), JunctionKey), key) ==
      if row.Some? && key.committee in row.value.validator.committees
      then Some(JunctionOf(row.value, key.committee, subsidized, retired)) else None
  {
    var parts := JunctionsOf(subsidized, retired);
    var js := Flatten(rows, parts);
    MapByFinds(js, JunctionKey, key);
    MapByFinds(rows, RowAddress, key.address);
    var row := Get(MapBy(rows, RowAddress), key.address);
    if row.Some? && key.committee in row.value.validator.committees {
      var cs := row.value.validator.committees;
      var i :| 0 <= i < |cs| && cs[i] == key.committee;
      var j := parts(row.value)[i];
      assert JunctionKey(j) == key && j in parts(row.value) && row.value in rows;
      FlattenIn(rows, parts, j);
      assert key in MapBy(js, JunctionKey);
    }
    if key in MapBy(js, JunctionKey) {
      var j := MapBy(js, JunctionKey)[key];
      FlattenIn(rows, parts, j);
      var r :| r in rows && j in parts(r);
      assert RowAddress(r) == key.address;
    }
  }

  lemma JunctionCopied(chain: Chain, key: Membership, height: nat)
    requires chain.Valid() && height >= 1
    ensures
      var row := Emitted(Feed(chain), key.address)(height);
      Emitted(JunctionFeed(chain), key)(height) ==
      if row.Some? && key.committee in row.value.validator.committees
      then Some(JunctionOf(row.value, key.committee, chain.subsidized(height), chain.retired(height)))
      else None
  {
    forall r | r in RowsAt(chain, height)
      ensures Get(MapBy(RowsAt(chain, height), RowAddress), RowAddress(r)) == Some(r)
    {
      RowIsFound(chain, r, height);
    }
    JunctionsByKey(RowsAt(chain, height), chain.subsidized(height), chain.retired(height), key);
  }

  /** A junction row exists for exactly the committees of the validators that got a row. It carries the validator's
      stake, status and flags, and whether the committee is subsidized or retired at this height. */
  lemma JunctionWritten(chain: Chain, key: Membership, height: nat)
    requires chain.Valid() && height >= 1
    ensures
      var row := Emitted(Feed(chain), key.address)(height);
      Emitted(JunctionFeed(chain), key)(height) ==
      if row.Some? && key.committee in row.value.validator.committees
      then
        var p := row.value.validator.profile;
        Some(Junction(key, p.stakedAmount, DeriveStatus(p), p.delegate, p.compound,
                      key.committee in chain.subsidized(height), key.committee in chain.retired(height), height))
      else None
    ensures
      var row, junction := Emitted(Feed(chain), key.address)(height), Emitted(JunctionFeed(chain), key)(height);
      junction.Some? ==> row.Some? && StatusIs(junction.value.status, row.value.validator.profile)
  {
    JunctionCopied(chain, key, height);
    RowOfAddress(chain, key.address, height);
  }

  lemma RowOfAddress(chain: Chain, address: string, height: nat)
    requires chain.Valid() && height >= 1
    ensures
      var row := Emitted(Feed(chain), address)(height);
      row.Some? ==> row.value.validator.address == address && row.value == RowOf(row.value.validator, height)
  {
    FeedAt(chain, address, height);
    MapByFinds(chain.validators(height), AddressOf, address);
  }

  lemma RowIsFound(chain: Chain, r: Row, height: nat)
    requires chain.Valid() && height >= 1 && r in RowsAt(chain, height)
    ensures Emitted(Feed(chain), r.validator.address)(height) == Some(r)
  {
    var current := chain.validators(height);
    var f := Change(MapBy(Previous(chain.validators, height), AddressOf), FlaggedAt(chain, height), height);
    CollectIn(current, f, r);
    var v :| v in current && f(v) == Some(r);
    DistinctFinds(current, AddressOf, v);
    FeedAt(chain, v.address, height);
  }

  /** The two committee flags of a junction row are those of the height that wrote it. */
  ghost predicate FlagsAsWritten(chain: Chain, key: Membership, j: Junction) {
    && (j.subsidized <==> key.committee in chain.subsidized(j.height))
    && (j.retired <==> key.committee in chain.retired(j.height))
  }

  ghost predicate JunctionRight(chain: Chain, key: Membership, row: Option<Junction>, height: nat) {
    var at := At(chain, key.address);
    at(height).Some? && key.committee in at(height).value.committees ==>
      var p := at(height).value.profile;
      && row.Some? && row.value.stakedAmount == p.stakedAmount && row.value.status == DeriveStatus(p)
      && row.value.delegate == p.delegate && row.value.compound == p.compound
      && row.value.height <= height && FlagsAsWritten(chain, key, row.value)
  }

  ghost predicate JunctionFollows(chain: Chain, key: Membership, row: Option<Junction>, height: nat)
    requires height >= 1
  {
    var at := At(chain, key.address);
    && (row.Some? ==> JunctionRight(chain, key, row, height))
    && (row.None? && at(height).Some? && key.committee in at(height).value.committees ==>
          && at(height - 1).Some? && at(height - 1).value.profile == at(height).value.profile
          && key.committee in at(height - 1).value.committees)
  }

  lemma JunctionFollowsRow(chain: Chain, key: Membership, height: nat)
    requires chain.Valid() && chain.NoRepeats() && height >= 1
    ensures JunctionFollows(chain, key, Emitted(JunctionFeed(chain), key)(height), height)
  {
    JunctionWritten(chain, key, height);
    RowWritten(chain, key.address, height);
    var at := At(chain, key.address);
    if Emitted(Feed(chain), key.address)(height).None? && at(height).Some? && key.committee in at(height).value.committees {
      assert key.committee in SetOf(at(height).value.committees);
      assert key.committee in SetOf(at(height - 1).value.committees);
    }
  }

  ghost function StoredJunctions(acts: seq<Action>, chain: Chain, key: Membership): nat -> Option<Junction>
    requires ValidRun(WELL_BEHAVED, INITIAL, acts)
  {
    Stored(After(WELL_BEHAVED, INITIAL, acts), CommitteeValidators, JunctionFeed(chain), JunctionFeed(Blind(chain)), key)
  }

  lemma BlindJunction(chain: Chain, key: Membership, height: nat)
    requires chain.Valid() && chain.NoRepeats() && height >= 1
    ensures JunctionFollows(chain, key, Emitted(JunctionFeed(Blind(chain)), key)(height), height)
  {
    JunctionFollowsRow(Blind(chain), key, height);
    assert At(Blind(chain), key.address)(height) == At(chain, key.address)(height);
    assert At(Blind(chain), key.address)(height - 1) == At(chain, key.address)(height - 1);
  }

  lemma StoredJunctionFollows(acts: seq<Action>, chain: Chain, key: Membership, height: nat)
    requires chain.Valid() && chain.NoRepeats() && height >= 1 && ValidRun(WELL_BEHAVED, INITIAL, acts)
    requires height in After(WELL_BEHAVED, INITIAL, acts).log
    ensures JunctionFollows(chain, key, StoredJunctions(acts, chain, key)(height), height)
  {
    StoredIs(acts, CommitteeValidators, JunctionFeed(chain), JunctionFeed(Blind(chain)), key, height);
    JunctionFollowsRow(chain, key, height);
    BlindJunction(chain, key, height);
  }

  lemma NewestJunctionRight(chain: Chain, key: Membership, emit: nat -> Option<Junction>, height: nat)
    requires emit(0).None?
    requires forall h :: 1 <= h <= height ==> JunctionFollows(chain, key, emit(h), h)
    ensures JunctionRight(chain, key, Newest(emit, height), height)
  {
    var right := (row: Option<Junction>, h: nat) => JunctionRight(chain, key, row, h);
    forall h | 1 <= h <= height && emit(h).Some? ensures right(emit(h), h) {
      assert JunctionFollows(chain, key, emit(h), h);
    }
    forall h, o | 1 <= h <= height && emit(h).None? && right(o, h - 1) ensures right(o, h) {
      assert JunctionFollows(chain, key, emit(h), h);
    }
    Compaction(emit, right, height);
  }

  /** In every run, for every committee a present validator is in, the newest junction row has its stake, status and
      flags, although junction rows are written only when the validator row is; the committee's own flags are those of
      the height that wrote the row. */
  lemma JunctionRefinement(acts: seq<Action>, chain: Chain, key: Membership, height: nat)
    requires chain.Valid() && chain.NoRepeats() && Indexed(acts, height)
    ensures JunctionRight(chain, key, Newest(StoredJunctions(acts, chain, key), height), height)
    ensures
      var row, now := Newest(StoredJunctions(acts, chain, key), height), At(chain, key.address)(height);
      now.Some? && key.committee in now.value.committees ==> row.Some? && StatusIs(row.value.status, now.value.profile)
  {
    forall h | 1 <= h <= height ensures JunctionFollows(chain, key, StoredJunctions(acts, chain, key)(h), h) {
      StoredJunctionFollows(acts, chain, key, h);
    }
    assert JunctionFeed(chain)(0) == JunctionFeed(Blind(chain))(0) == map[];
    StoredAtZero(After(WELL_BEHAVED, INITIAL, acts), CommitteeValidators, JunctionFeed(chain), JunctionFeed(Blind(chain)), key);
    NewestJunctionRight(chain, key, StoredJunctions(acts, chain, key), height);
  }

  // ---------------------------------------------------------------- memberships that end, and committee flags

  /** An event names the validator and some promoted attempt at the junction rows saw it. */
  ghost function JunctionFlagSeen(acts: seq<Action>, chain: Chain, address: string): nat -> bool
    requires ValidRun(WELL_BEHAVED, INITIAL, acts)
  {
    (h: nat) => Flagged(chain, address, h) && SawEvents(After(WELL_BEHAVED, INITIAL, acts), CommitteeValidators, h)
  }

  /** The validator is in the committee. */
  predicate Member(v: Option<Validator>, committee: nat) {
    v.Some? && committee in v.value.committees
  }

  /** A junction row is written for a member whose validator is new, changed, or named by an event. */
  ghost predicate WritesMember(before: Option<Validator>, now: Option<Validator>, flagged: bool, committee: nat) {
    Member(now, committee) && (before.None? || flagged || !Agrees(before.value, now.value))
  }

  ghost predicate MemberMovedAt(at: nat -> Option<Validator>, flagged: nat -> bool, committee: nat, h: nat) {
    h >= 1 && WritesMember(at(h - 1), at(h), flagged(h), committee)
  }

  ghost function MemberMoved(at: nat -> Option<Validator>, flagged: nat -> bool, committee: nat): nat -> bool {
    (h: nat) => MemberMovedAt(at, flagged, committee, h)
  }

  /** The junction row of a membership of this height. */
  function JunctionNow(chain: Chain, key: Membership, v: Validator, height: nat): Junction {
    Junction(key, v.profile.stakedAmount, DeriveStatus(v.profile), v.profile.delegate, v.profile.compound,
             key.committee in chain.subsidized(height), key.committee in chain.retired(height), height)
  }

  ghost predicate JunctionIs(chain: Chain, key: Membership, flagged: bool, row: Option<Junction>, height: nat)
    requires height >= 1
  {
    var before, now := At(chain, key.address)(height - 1), At(chain, key.address)(height);
    row == if WritesMember(before, now, flagged, key.committee) then Some(JunctionNow(chain, key, now.value, height)) else None
  }

  lemma JunctionExact(chain: Chain, key: Membership, height: nat)
    requires chain.Valid() && chain.NoRepeats() && height >= 1
    ensures JunctionIs(chain, key, Flagged(chain, key.address, height), Emitted(JunctionFeed(chain), key)(height), height)
  {
    JunctionWritten(chain, key, height);
    RowWritten(chain, key.address, height);
  }

  lemma BlindJunctionExact(chain: Chain, key: Membership, height: nat)
    requires chain.Valid() && chain.NoRepeats() && height >= 1
    ensures JunctionIs(chain, key, false, Emitted(JunctionFeed(Blind(chain)), key)(height), height)
  {
    JunctionExact(Blind(chain), key, height);
    assert At(Blind(chain), key.address)(height) == At(chain, key.address)(height);
    assert At(Blind(chain), key.address)(height - 1) == At(chain, key.address)(height - 1);
    assert !Flagged(Blind(chain), key.address, height);
  }

  /** The junction row shown at a recorded height, whichever attempts saw the events. */
  lemma StoredJunctionIs(acts: seq<Action>, chain: Chain, key: Membership, height: nat)
    requires chain.Valid() && chain.NoRepeats() && height >= 1 && ValidRun(WELL_BEHAVED, INITIAL, acts)
    requires height in After(WELL_BEHAVED, INITIAL, acts).log
    ensures JunctionIs(chain, key, JunctionFlagSeen(acts, chain, key.address)(height),
                       StoredJunctions(acts, chain, key)(height), height)
  {
    StoredIs(acts, CommitteeValidators, JunctionFeed(chain), JunctionFeed(Blind(chain)), key, height);
    JunctionExact(chain, key, height);
    BlindJunctionExact(chain, key, height);
  }

  lemma {:induction false} NewestIsMoved(
    chain: Chain, key: Membership, flagged: nat -> bool, emit: nat -> Option<Junction>, height: nat)
    requires emit(0).None? && forall h :: 1 <= h <= height ==> JunctionIs(chain, key, flagged(h), emit(h), h)
    ensures
      var at := At(chain, key.address);
      var g := LastTime(MemberMoved(at, flagged, key.committee), height);
      && g <= height && (g > 0 ==> at(g).Some?)
      && Newest(emit, height) == if g == 0 then None else Some(JunctionNow(chain, key, at(g).value, g))
  {
    if height > 0 {
      assert JunctionIs(chain, key, flagged(height), emit(height), height);
      if !MemberMoved(At(chain, key.address), flagged, key.committee)(height) {
        NewestIsMoved(chain, key, flagged, emit, height - 1);
      }
    }
  }

  /** In every run the newest junction row of any membership, also of one that has ended, is that of the last height
      which wrote it. */
  lemma NewestJunction(acts: seq<Action>, chain: Chain, key: Membership, height: nat)
    requires chain.Valid() && chain.NoRepeats() && Indexed(acts, height)
    ensures
      var at := At(chain, key.address);
      var g := LastTime(MemberMoved(at, JunctionFlagSeen(acts, chain, key.address), key.committee), height);
      && g <= height && (g > 0 ==> at(g).Some?)
      && Newest(StoredJunctions(acts, chain, key), height)
         == if g == 0 then None else Some(JunctionNow(chain, key, at(g).value, g))
  {
    var stored, seen := StoredJunctions(acts, chain, key), JunctionFlagSeen(acts, chain, key.address);
    assert JunctionFeed(chain)(0) == JunctionFeed(Blind(chain))(0) == map[];
    StoredAtZero(After(WELL_BEHAVED, INITIAL, acts), CommitteeValidators, JunctionFeed(chain), JunctionFeed(Blind(chain)), key);
    forall h | 1 <= h <= height ensures JunctionIs(chain, key, seen(h), stored(h), h) {
      StoredJunctionIs(acts, chain, key, h);
    }
    NewestIsMoved(chain, key, seen, stored, height);
  }

  /** A validator that leaves a committee, or altogether, gets no row there: the membership keeps its newest row, with
      the stake and status of the last height it existed, so it still looks current. */
  lemma EndedMembershipStays(acts: seq<Action>, chain: Chain, key: Membership, last: nat, height: nat)
    requires chain.Valid() && chain.NoRepeats() && Indexed(acts, height) && 1 <= last <= height
    requires Member(At(chain, key.address)(last), key.committee)
    requires forall h :: last < h <= height ==> !Member(At(chain, key.address)(h), key.committee)
    ensures
      var newest, p := Newest(StoredJunctions(acts, chain, key), height), At(chain, key.address)(last).value.profile;
      && newest == Newest(StoredJunctions(acts, chain, key), last)
      && newest.Some? && newest.value.stakedAmount == p.stakedAmount && StatusIs(newest.value.status, p)
  {
    forall h | last < h <= height ensures StoredJunctions(acts, chain, key)(h).None? {
      StoredJunctionIs(acts, chain, key, h);
    }
    NewestKept(StoredJunctions(acts, chain, key), last, height);
    JunctionRefinement(acts, chain, key, last);
  }

  /** A committee's own flags are copied but not compared: what is read of them for a present membership is right exactly
      when they are as they were at the last height that wrote the row. */
  lemma CommitteeFlagsRecoveredIff(acts: seq<Action>, chain: Chain, key: Membership, height: nat)
    requires chain.Valid() && chain.NoRepeats() && Indexed(acts, height)
    requires Member(At(chain, key.address)(height), key.committee)
    ensures
      var row := Newest(StoredJunctions(acts, chain, key), height);
      var moved := MemberMoved(At(chain, key.address), JunctionFlagSeen(acts, chain, key.address), key.committee);
      var g := LastTime(moved, height);
      && row.Some? && row.value.height == g
      && ((row.value.subsidized <==> key.committee in chain.subsidized(height))
          <==> (key.committee in chain.subsidized(g) <==> key.committee in chain.subsidized(height)))
      && ((row.value.retired <==> key.committee in chain.retired(height))
          <==> (key.committee in chain.retired(g) <==> key.committee in chain.retired(height)))
  {
    NewestJunction(acts, chain, key, height);
    JunctionRefinement(acts, chain, key, height);
  }

  const STANDING := Validator("v", Profile("", "", 10, "", 0, 0, false, false), [1])

  /** Validator v of committee 1 does not change, and the committee is retired at height 2. */
  function RetiredCommittee(): Chain {
    Chain((h: nat) => [STANDING], (h: nat) => [], (h: nat) => [], (h: nat) => if h <= 1 then [] else [1])
  }

  lemma StandingValidator(h: nat)
    requires h >= 1
    ensures RetiredCommittee().Valid() && RetiredCommittee().NoRepeats()
    ensures At(RetiredCommittee(), "v")(h) == Some(STANDING) && !Flagged(RetiredCommittee(), "v", h)
  {
    assert [STANDING][..0] == [];
  }

  /** There every run leaves readers of height 2 with a committee that is not retired. */
  lemma CommitteeFlagsNotRecovered(acts: seq<Action>)
    requires Indexed(acts, 2)
    ensures
      var key := Membership(1, "v");
      var row := Newest(StoredJunctions(acts, RetiredCommittee(), key), 2);
      1 in RetiredCommittee().retired(2) && row.Some? && !row.value.retired
  {
    var chain, key := RetiredCommittee(), Membership(1, "v");
    var moved := MemberMoved(At(chain, "v"), JunctionFlagSeen(acts, chain, "v"), 1);
    StandingValidator(1);
    StandingValidator(2);
    assert Agrees(STANDING, STANDING);
    assert moved(1) && !moved(2);
    assert LastTime(moved, 2) == LastTime(moved, 1) == 1;
    NewestJunction(acts, chain, key, 2);
  }
}
