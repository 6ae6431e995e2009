/** The per-block commit protocol as a step system: any number of IndexBlock
    workflow executions, their activities (run at least once, in any
    interleaving), the staging cleanup beside them, and the two tables and the
    progress log they share. */
module CommitProtocol {
  /** The entities that go through a staging table, in the order the workflow lists them. */
  datatype Entity =
    | Blocks | Txs | BlockSummaries | Accounts | Events | Pools | Orders | DexPrices | Params | Validators
    | NonSigning | DoubleSigning | Committees | CommitteeValidators | CommitteePayments
    | DexOrders | DexDeposits | DexWithdrawals | PoolPoints | Supply

  const STAGING_ENTITIES: seq<Entity> :=
    [Blocks, Txs, BlockSummaries, Accounts, Events, Pools, Orders, DexPrices, Params, Validators]
    + [NonSigning, DoubleSigning, Committees, CommitteeValidators, CommitteePayments,
       DexOrders, DexDeposits, DexWithdrawals, PoolPoints, Supply]

  /** What one activity writes for one entity at one height: by which run, and whether it found that height's
      events in the staging table. If it did not, it computed its rows as if the height had no events. */
  datatype Content = Content(run: nat, sighted: bool)

  /** All rows of one entity at one height. A table maps a slot to everything inserted there, oldest first; per row key
      the deduplicating engine shows the last insert. */
  datatype Slot = Slot(entity: Entity, height: nat)
  type Table = map<Slot, seq<Content>>

  /** Workflow ids: one for first-time indexing of a height, one per reindex request. */
  datatype WorkflowId = Index(height: nat) | Reindex(height: nat, request: nat)

  datatype Phase =
    | Preparing
    | Indexing(staged: set<Entity>)
    | Promoting(promoted: set<Entity>)
    | Recording(skipped: bool)
    | Done(skipped: bool)
    | Killed

  datatype Run = Run(id: WorkflowId, phase: Phase)

  datatype State = State(
    staging: Table,
    production: Table,
    log: seq<nat>,
    runs: map<nat, Run>,
    cleanable: set<nat>)

  const INITIAL := State(map[], map[], [], map[], {})

  /** What the environment may do beyond Temporal's own guarantee of one live run per workflow id. A late
      repetition is an attempt that still writes although its workflow has moved past that activity. */
  datatype Environment = Environment(oneRunPerHeight: bool, mayKill: bool, lateRepeats: bool) {
    predicate Serial() {
      oneRunPerHeight && !mayKill
    }
  }

  const WELL_BEHAVED := Environment(true, false, true)

  /** The same without late repetitions. */
  const PROMPT := Environment(true, false, false)

  datatype Action =
    | Start(run: nat, id: WorkflowId)
    | Prepare(run: nat)
    | Stage(run: nat, entity: Entity)
    | BeginPromotion(run: nat)
    | Promote(run: nat, entity: Entity)
    | BeginRecord(run: nat)
    | Record(run: nat)
    | ReadCleanable(heights: set<nat>)
    | Clean(entity: Entity, heights: set<nat>)
    | Kill(run: nat)

  predicate Live(p: Phase) {
    !p.Done? && !p.Killed?
  }

  /** The run went past the skip test and writes data. Its activities may be repeated late, even after it is done. */
  predicate Writes(p: Phase) {
    p.Indexing? || p.Promoting? || ((p.Recording? || p.Done?) && !p.skipped)
  }

  ghost predicate AllStaged(done: set<Entity>) {
    forall e: Entity :: e in done
  }

  function Contents(t: Table, slot: Slot): seq<Content> {
    if slot in t then t[slot] else []
  }

  ghost predicate HasSighted(cs: seq<Content>) {
    exists c :: c in cs && c.sighted
  }

  ghost predicate HasBlind(cs: seq<Content>) {
    exists c :: c in cs && !c.sighted
  }

  ghost predicate Untouched(before: Table, now: Table, slot: Slot) {
    Contents(now, slot) == Contents(before, slot) && (slot in now <==> slot in before)
  }

  /** The last content inserted in a slot, which the deduplicating engine shows wherever it has a row. */
  function Latest(t: Table, slot: Slot): (latest: seq<Content>)
    ensures |latest| <= 1
  {
    var cs := Contents(t, slot);
    if cs == [] then [] else [cs[|cs| - 1]]
  }

  function Insert(t: Table, slot: Slot, contents: seq<Content>): Table {
    t[slot := Contents(t, slot) + contents]
  }

  lemma LatestInsert(t: Table, slot: Slot, contents: seq<Content>, other: Slot)
    requires contents != []
    ensures Latest(Insert(t, slot, contents), slot) == [contents[|contents| - 1]]
    ensures other != slot ==> Contents(Insert(t, slot, contents), other) == Contents(t, other)
  {
  }

  /** INSERT INTO staging, by an activity that has read the staged events of its height if it needs them. */
  function StageSlot(staging: Table, run: nat, slot: Slot): Table {
    Insert(staging, slot, [Content(run, slot.entity == Events || Slot(Events, slot.height) in staging)])
  }

  /** INSERT INTO production SELECT * FROM staging WHERE height = ?. */
  function PromoteSlot(production: Table, staging: Table, slot: Slot): Table {
    if slot in staging then Insert(production, slot, staging[slot]) else production
  }

  /** DELETE FROM staging WHERE height IN heights, for one entity. */
  function CleanSlots(staging: Table, entity: Entity, heights: set<nat>): Table {
    map slot | slot in staging && !(slot.entity == entity && slot.height in heights) :: staging[slot]
  }

  ghost predicate Enabled(env: Environment, s: State, a: Action) {
    match a
    case Start(r, id) =>
      && r !in s.runs
      && (forall q :: q in s.runs && Live(s.runs[q].phase) ==>
            s.runs[q].id != id && (env.oneRunPerHeight ==> s.runs[q].id.height != id.height))
    case Prepare(r) =>
      r in s.runs && s.runs[r].phase.Preparing?
    case Stage(r, e) =>
      && r in s.runs && (s.runs[r].phase.Indexing? || (env.lateRepeats && Writes(s.runs[r].phase)))
      && (s.runs[r].phase.Indexing? ==>
            var staged := s.runs[r].phase.staged;
            // events are staged first, the summary once everything else is
            && (e != Events ==> Events in staged)
            && (e == BlockSummaries ==> forall f: Entity :: f != BlockSummaries ==> f in staged))
    case BeginPromotion(r) =>
      r in s.runs && s.runs[r].phase.Indexing? && AllStaged(s.runs[r].phase.staged)
    case Promote(r, e) =>
      && r in s.runs && !s.runs[r].phase.Indexing?
      && (s.runs[r].phase.Promoting? || (env.lateRepeats && Writes(s.runs[r].phase)))
    case BeginRecord(r) =>
      r in s.runs && s.runs[r].phase.Promoting? && AllStaged(s.runs[r].phase.promoted)
    case Record(r) =>
      // the activity fails, and is retried, while the block row is missing
      && r in s.runs && (s.runs[r].phase.Recording? || (env.lateRepeats && s.runs[r].phase.Done?))
      && Slot(Blocks, s.runs[r].id.height) in s.production
    case ReadCleanable(hs) =>
      // the time window picks some of the recorded heights
      forall h :: h in hs ==> h in s.log
    case Clean(_, hs) =>
      hs <= s.cleanable
    case Kill(r) =>
      env.mayKill && r in s.runs && Live(s.runs[r].phase)
  }

  function WithPhase(s: State, r: nat, p: Phase): State
    requires r in s.runs
  {
    s.(runs := s.runs[r := s.runs[r].(phase := p)])
  }

  function Apply(env: Environment, s: State, a: Action): State
    requires Enabled(env, s, a)
  {
    match a
    case Start(r, id) => s.(runs := s.runs[r := Run(id, Preparing)])
    case Prepare(r) =>
      var run := s.runs[r];
      var indexed := Slot(Blocks, run.id.height) in s.production;
      WithPhase(s, r, if !run.id.Reindex? && indexed then Recording(true) else Indexing({}))
    case Stage(r, e) =>
      var run := s.runs[r];
      var s' := s.(staging := StageSlot(s.staging, r, Slot(e, run.id.height)));
      if run.phase.Indexing? then WithPhase(s', r, Indexing(run.phase.staged + {e})) else s'
    case BeginPromotion(r) => WithPhase(s, r, Promoting({}))
    case Promote(r, e) =>
      var run := s.runs[r];
      var s' := s.(production := PromoteSlot(s.production, s.staging, Slot(e, run.id.height)));
      if run.phase.Promoting? then WithPhase(s', r, Promoting(run.phase.promoted + {e})) else s'
    case BeginRecord(r) => WithPhase(s, r, Recording(false))
    case Record(r) =>
      var s' := s.(log := s.log + [s.runs[r].id.height]);
      WithPhase(s', r, Done(s.runs[r].phase.skipped))
    case ReadCleanable(hs) => s.(cleanable := s.cleanable + hs)
    case Clean(e, hs) => s.(staging := CleanSlots(s.staging, e, hs))
    case Kill(r) => WithPhase(s, r, Killed)
  }

  ghost predicate ValidRun(env: Environment, s: State, acts: seq<Action>)
    decreases |acts|
  {
    acts == [] || (Enabled(env, s, acts[0]) && ValidRun(env, Apply(env, s, acts[0]), acts[1..]))
  }

  ghost function After(env: Environment, s: State, acts: seq<Action>): State
    requires ValidRun(env, s, acts)
    decreases |acts|
  {
    if acts == [] then s else After(env, Apply(env, s, acts[0]), acts[1..])
  }

  lemma {:induction false} RunConcat(env: Environment, s: State, a: seq<Action>, b: seq<Action>)
    requires ValidRun(env, s, a) && ValidRun(env, After(env, s, a), b)
    ensures ValidRun(env, s, a + b) && After(env, s, a + b) == After(env, After(env, s, a), b)
    decreases |a|
  {
    if a == [] {
      assert a + b == b;
    } else {
      RunConcat(env, Apply(env, s, a[0]), a[1..], b);
      assert (a + b)[1..] == a[1..] + b;
    }
  }

  /** Some promoted data of the slot saw the events of its height, or did not. */
  ghost predicate SawEvents(s: State, entity: Entity, h: nat) {
    HasSighted(Contents(s.production, Slot(entity, h)))
  }

  ghost predicate WentBlind(s: State, entity: Entity, h: nat) {
    HasBlind(Contents(s.production, Slot(entity, h)))
  }

  /** A slot in a table has had something inserted. */
  ghost predicate NoEmptySlots(s: State) {
    && (forall slot :: slot in s.staging ==> s.staging[slot] != [])
    && (forall slot :: slot in s.production ==> s.production[slot] != [])
  }

  lemma {:induction false} NoEmptySlotsAlways(env: Environment, s: State, acts: seq<Action>)
    requires NoEmptySlots(s) && ValidRun(env, s, acts)
    ensures NoEmptySlots(After(env, s, acts))
    decreases |acts|
  {
    if acts != [] {
      NoEmptySlotsAlways(env, Apply(env, s, acts[0]), acts[1..]);
    }
  }

  // ---------------------------------------------------------------- the invariant

  ghost predicate AllPromoted(s: State, h: nat) {
    forall e: Entity :: Slot(e, h) in s.production
  }

  ghost predicate NeverReindexed(s: State, h: nat) {
    forall r :: r in s.runs && s.runs[r].id.height == h ==> !s.runs[r].id.Reindex?
  }

  ghost predicate Owns(s: State, r: nat, h: nat) {
    r in s.runs && s.runs[r].id.height == h && Writes(s.runs[r].phase)
  }

  ghost predicate InTables(s: State, slot: Slot) {
    slot in s.staging || slot in s.production
  }

  /** What a run has achieved for its height by the time it is in its phase. */
  ghost predicate PhaseSound(s: State, run: Run) {
    match run.phase
    case Preparing => true
    case Indexing(staged) => forall e :: e in staged ==> InTables(s, Slot(e, run.id.height))
    case Promoting(promoted) =>
      && (forall e :: e in promoted ==> Slot(e, run.id.height) in s.production)
      && (forall e: Entity :: InTables(s, Slot(e, run.id.height)))
    case Recording(_) => AllPromoted(s, run.id.height)
    case Done(_) => AllPromoted(s, run.id.height)
    case Killed => false
  }

  ghost predicate LogSafe(s: State) {
    forall h :: h in s.log ==> AllPromoted(s, h)
  }

  ghost predicate CleanableLogged(s: State) {
    forall h :: h in s.cleanable ==> h in s.log
  }

  ghost predicate OneLive(s: State) {
    forall q, r ::
      (q in s.runs && r in s.runs && Live(s.runs[q].phase) && Live(s.runs[r].phase)
       && s.runs[q].id.height == s.runs[r].id.height) ==> q == r
  }

  ghost predicate PhasesSound(s: State) {
    forall r :: r in s.runs ==> PhaseSound(s, s.runs[r])
  }

  ghost predicate Owned(s: State) {
    forall slot :: InTables(s, slot) ==> exists r :: Owns(s, r, slot.height)
  }

  ghost predicate Invariant(s: State) {
    LogSafe(s) && CleanableLogged(s) && OneLive(s) && PhasesSound(s) && Owned(s)
  }

  /** Data of a height that no reindex run touches comes from one run alone. */
  ghost predicate SoleOwner(s: State) {
    forall q, r, h :: NeverReindexed(s, h) && Owns(s, q, h) && Owns(s, r, h) ==> q == r
  }

  ghost predicate WrittenBy(t: Table, slot: Slot, r: nat) {
    forall c :: c in Contents(t, slot) ==> c.run == r
  }

  ghost predicate OwnersContent(s: State) {
    forall r, slot: Slot :: NeverReindexed(s, slot.height) && Owns(s, r, slot.height) ==>
      WrittenBy(s.staging, slot, r) && WrittenBy(s.production, slot, r)
  }

  // ---------------------------------------------------------------- every step keeps it

  /** A block row in production while no other run is live means the whole height is in production. */
  lemma SkipIsSafe(s: State, r: nat)
    requires Invariant(s) && r in s.runs && s.runs[r].phase.Preparing?
    requires Slot(Blocks, s.runs[r].id.height) in s.production
    ensures AllPromoted(s, s.runs[r].id.height)
  {
    var h := s.runs[r].id.height;
    assert InTables(s, Slot(Blocks, h));
    var q :| Owns(s, q, h);
    assert PhaseSound(s, s.runs[q]);
    assert !Live(s.runs[q].phase);
  }

  /** No step loses data: a slot known to either table stays known, and production only grows. */
  lemma TablesKept(env: Environment, s: State, a: Action)
    requires Enabled(env, s, a) && LogSafe(s) && CleanableLogged(s)
    ensures forall slot :: slot in s.production ==> slot in Apply(env, s, a).production
    ensures forall slot :: InTables(s, slot) ==> InTables(Apply(env, s, a), slot)
  {
    var s' := Apply(env, s, a);
    forall slot | InTables(s, slot) ensures InTables(s', slot) {
      if a.Clean? && slot.height in a.heights {
        assert AllPromoted(s, slot.height);
      }
    }
  }

  lemma PhasesSoundStep(s: State, a: Action)
    requires Invariant(s) && Enabled(WELL_BEHAVED, s, a)
    ensures PhasesSound(Apply(WELL_BEHAVED, s, a))
  {
    var s' := Apply(WELL_BEHAVED, s, a);
    TablesKept(WELL_BEHAVED, s, a);
    forall r | r in s'.runs ensures PhaseSound(s', s'.runs[r]) {
      if r in s.runs {
        var h := s.runs[r].id.height;
        assert PhaseSound(s, s.runs[r]);
        assert AllPromoted(s, h) ==> AllPromoted(s', h);
        if a.Prepare? && a.run == r && s'.runs[r].phase.Recording? {
          SkipIsSafe(s, r);
        }
        if a.Promote? && a.run == r {
          assert InTables(s, Slot(a.entity, h));
        }
      }
    }
  }

  lemma OwnedStep(s: State, a: Action)
    requires Invariant(s) && Enabled(WELL_BEHAVED, s, a)
    ensures Owned(Apply(WELL_BEHAVED, s, a))
  {
    var s' := Apply(WELL_BEHAVED, s, a);
    forall slot | InTables(s', slot) ensures exists r :: Owns(s', r, slot.height) {
      if InTables(s, slot) {
        var r :| Owns(s, r, slot.height);
        assert Owns(s', r, slot.height);
      } else {
        assert Owns(s', a.run, slot.height);
      }
    }
  }

  lemma InvariantStep(s: State, a: Action)
    requires Invariant(s) && Enabled(WELL_BEHAVED, s, a)
    ensures Invariant(Apply(WELL_BEHAVED, s, a))
  {
    var s' := Apply(WELL_BEHAVED, s, a);
    PhasesSoundStep(s, a);
    OwnedStep(s, a);
    TablesKept(WELL_BEHAVED, s, a);
    forall h | h in s'.log ensures AllPromoted(s', h) {
      if h in s.log {
        assert AllPromoted(s, h);
      } else {
        assert PhaseSound(s', s'.runs[a.run]);
      }
    }
  }

  /** While a run prepares and the block row is missing, no run has written data for its height. */
  lemma NobodyWroteBefore(s: State, r: nat)
    requires Invariant(s) && r in s.runs && s.runs[r].phase.Preparing?
    requires Slot(Blocks, s.runs[r].id.height) !in s.production
    ensures forall q :: !Owns(s, q, s.runs[r].id.height)
  {
    forall q | q in s.runs && s.runs[q].id.height == s.runs[r].id.height ensures !Writes(s.runs[q].phase) {
      assert PhaseSound(s, s.runs[q]);
    }
  }

  lemma SoleOwnerStep(s: State, a: Action)
    requires Invariant(s) && SoleOwner(s) && Enabled(WELL_BEHAVED, s, a)
    ensures SoleOwner(Apply(WELL_BEHAVED, s, a))
  {
    var s' := Apply(WELL_BEHAVED, s, a);
    forall q, r, h | NeverReindexed(s', h) && Owns(s', q, h) && Owns(s', r, h) ensures q == r {
      NeverReindexedBefore(s, a, h);
      OwnerOrigin(s, a, q, h);
      OwnerOrigin(s, a, r, h);
      if a.Prepare? && Slot(Blocks, s.runs[a.run].id.height) !in s.production {
        NobodyWroteBefore(s, a.run);
      }
    }
  }

  /** A run becomes a writer only by finding the block row missing, unless it reindexes. */
  lemma OwnerOrigin(s: State, a: Action, r: nat, h: nat)
    requires Enabled(WELL_BEHAVED, s, a) && NeverReindexed(s, h) && Owns(Apply(WELL_BEHAVED, s, a), r, h)
    ensures Owns(s, r, h) || (a.Prepare? && a.run == r && Slot(Blocks, h) !in s.production)
  {
  }

  lemma NeverReindexedBefore(s: State, a: Action, h: nat)
    requires Enabled(WELL_BEHAVED, s, a) && NeverReindexed(Apply(WELL_BEHAVED, s, a), h)
    ensures NeverReindexed(s, h)
  {
    var s' := Apply(WELL_BEHAVED, s, a);
    forall r | r in s.runs && s.runs[r].id.height == h ensures !s.runs[r].id.Reindex? {
      assert r in s'.runs && s'.runs[r].id == s.runs[r].id;
    }
  }

  /** Where the contents of the tables come from. */
  lemma ContentsStep(env: Environment, s: State, a: Action, slot: Slot, c: Content)
    requires Enabled(env, s, a)
    ensures
      var s' := Apply(env, s, a);
      && (c in Contents(s'.staging, slot) ==>
            || c in Contents(s.staging, slot)
            || (a.Stage? && slot == Slot(a.entity, s.runs[a.run].id.height) && c.run == a.run
                && (c.sighted <==> a.entity == Events || Slot(Events, slot.height) in s.staging)))
      && (c in Contents(s'.production, slot) ==>
            || c in Contents(s.production, slot)
            || (a.Promote? && slot == Slot(a.entity, s.runs[a.run].id.height) && c in Contents(s.staging, slot)))
  {
  }

  /** What a step does to the contents of a slot, exactly. A promotion appends to production whatever is staged and
      removes nothing, an attempt appends one content to staging, and only the cleanup takes staged contents away. */
  lemma ContentsMove(env: Environment, s: State, a: Action, slot: Slot)
    requires Enabled(env, s, a)
    ensures
      var s' := Apply(env, s, a);
      && Contents(s'.production, slot) ==
           (if a.Promote? && slot == Slot(a.entity, s.runs[a.run].id.height)
            then Contents(s.production, slot) + Contents(s.staging, slot) else Contents(s.production, slot))
      && (if a.Clean? && slot.entity == a.entity && slot.height in a.heights then slot !in s'.staging
          else if a.Stage? && slot == Slot(a.entity, s.runs[a.run].id.height) then
            Contents(s'.staging, slot)
            == Contents(s.staging, slot) + [Content(a.run, a.entity == Events || Slot(Events, slot.height) in s.staging)]
          else Contents(s'.staging, slot) == Contents(s.staging, slot))
  {
  }

  /** Over every run, of every environment, production only ever grows, by appending. */
  lemma {:induction false} ProductionGrows(env: Environment, s: State, acts: seq<Action>, slot: Slot)
    requires ValidRun(env, s, acts)
    ensures Contents(s.production, slot) <= Contents(After(env, s, acts).production, slot)
    ensures slot in s.production ==> slot in After(env, s, acts).production
    decreases |acts|
  {
    if acts != [] {
      ContentsMove(env, s, acts[0], slot);
      ProductionGrows(env, Apply(env, s, acts[0]), acts[1..], slot);
    }
  }

  /** Along a run the production contents of a slot are, in order, what was staged there at each promotion of it. */
  ghost function Promoted(env: Environment, s: State, acts: seq<Action>, slot: Slot): seq<Content>
    requires ValidRun(env, s, acts)
    decreases |acts|
  {
    if acts == [] then []
    else
      var a := acts[0];
      (if a.Promote? && slot == Slot(a.entity, s.runs[a.run].id.height) then Contents(s.staging, slot) else [])
      + Promoted(env, Apply(env, s, a), acts[1..], slot)
  }

  lemma {:induction false} ProductionIsPromoted(env: Environment, s: State, acts: seq<Action>, slot: Slot)
    requires ValidRun(env, s, acts)
    ensures Contents(After(env, s, acts).production, slot) == Contents(s.production, slot) + Promoted(env, s, acts, slot)
    decreases |acts|
  {
    if acts != [] {
      ContentsMove(env, s, acts[0], slot);
      ProductionIsPromoted(env, Apply(env, s, acts[0]), acts[1..], slot);
    }
  }

  /** A run that wrote data keeps its height and its place as a writer. */
  lemma OwnerStays(env: Environment, s: State, a: Action, r: nat, h: nat)
    requires Enabled(env, s, a) && Owns(s, r, h)
    requires !env.mayKill
    ensures Owns(Apply(env, s, a), r, h)
  {
  }

  /** Before the step, too, the only owner of a height is the one that owns it afterwards, if its data was there. */
  lemma OwnerWas(s: State, a: Action, r: nat, slot: Slot)
    requires Owned(s) && Enabled(WELL_BEHAVED, s, a) && SoleOwner(Apply(WELL_BEHAVED, s, a))
    requires NeverReindexed(Apply(WELL_BEHAVED, s, a), slot.height) && Owns(Apply(WELL_BEHAVED, s, a), r, slot.height)
    requires InTables(s, slot)
    ensures Owns(s, r, slot.height)
  {
    var q :| Owns(s, q, slot.height);
    OwnerStays(WELL_BEHAVED, s, a, q, slot.height);
  }

  lemma StagerOwns(env: Environment, s: State, a: Action)
    requires Enabled(env, s, a) && a.Stage?
    ensures Owns(Apply(env, s, a), a.run, s.runs[a.run].id.height)
  {
  }

  lemma OwnersContentStep(s: State, a: Action)
    requires Owned(s) && OwnersContent(s) && Enabled(WELL_BEHAVED, s, a) && SoleOwner(Apply(WELL_BEHAVED, s, a))
    ensures OwnersContent(Apply(WELL_BEHAVED, s, a))
  {
    var s' := Apply(WELL_BEHAVED, s, a);
    forall r, slot: Slot | NeverReindexed(s', slot.height) && Owns(s', r, slot.height)
      ensures WrittenBy(s'.staging, slot, r) && WrittenBy(s'.production, slot, r)
    {
      forall c | c in Contents(s'.staging, slot) || c in Contents(s'.production, slot) ensures c.run == r {
        OwnersContentAt(s, a, r, slot, c);
      }
    }
  }

  lemma OwnersContentAt(s: State, a: Action, r: nat, slot: Slot, c: Content)
    requires Owned(s) && OwnersContent(s) && Enabled(WELL_BEHAVED, s, a) && SoleOwner(Apply(WELL_BEHAVED, s, a))
    requires NeverReindexed(Apply(WELL_BEHAVED, s, a), slot.height) && Owns(Apply(WELL_BEHAVED, s, a), r, slot.height)
    requires
      var s' := Apply(WELL_BEHAVED, s, a);
      c in Contents(s'.staging, slot) || c in Contents(s'.production, slot)
    ensures c.run == r
  {
    NeverReindexedBefore(s, a, slot.height);
    ContentsStep(WELL_BEHAVED, s, a, slot, c);
    if InTables(s, slot) {
      OwnerWas(s, a, r, slot);
    }
    if a.Stage? {
      StagerOwns(WELL_BEHAVED, s, a);
    }
  }

  // ---------------------------------------------------------------- safety over all runs

  lemma {:induction false} InvariantAlways(s: State, acts: seq<Action>)
    requires Invariant(s) && SoleOwner(s) && OwnersContent(s) && ValidRun(WELL_BEHAVED, s, acts)
    ensures
      var s' := After(WELL_BEHAVED, s, acts);
      Invariant(s') && SoleOwner(s') && OwnersContent(s')
    decreases |acts|
  {
    if acts != [] {
      InvariantStep(s, acts[0]);
      SoleOwnerStep(s, acts[0]);
      OwnersContentStep(s, acts[0]);
      InvariantAlways(Apply(WELL_BEHAVED, s, acts[0]), acts[1..]);
    }
  }

  /** Whatever a serial environment does, a well-behaved one may do. */
  lemma {:induction false} SerialIsWellBehaved(env: Environment, s: State, acts: seq<Action>)
    requires env.Serial() && ValidRun(env, s, acts)
    ensures ValidRun(WELL_BEHAVED, s, acts) && After(WELL_BEHAVED, s, acts) == After(env, s, acts)
    decreases |acts|
  {
    if acts != [] {
      assert Enabled(WELL_BEHAVED, s, acts[0]);
      SerialIsWellBehaved(env, Apply(env, s, acts[0]), acts[1..]);
    }
  }

  /** All or nothing, as far as the progress log tells: a recorded height is in production with every entity. */
  lemma CommitSafety(acts: seq<Action>, h: nat)
    requires ValidRun(WELL_BEHAVED, INITIAL, acts)
    requires h in After(WELL_BEHAVED, INITIAL, acts).log
    ensures AllPromoted(After(WELL_BEHAVED, INITIAL, acts), h)
  {
    InvariantAlways(INITIAL, acts);
  }

  /** When the cleanup deletes staged data of a height only indexed first-time, production holds data of the very
      execution that staged it, even if attempts are repeated late. */
  lemma FirstTimeCleanup(acts: seq<Action>, e: Entity, hs: set<nat>, slot: Slot)
    requires ValidRun(WELL_BEHAVED, INITIAL, acts)
    requires
      var s := After(WELL_BEHAVED, INITIAL, acts);
      && Enabled(WELL_BEHAVED, s, Clean(e, hs)) && NeverReindexed(s, slot.height)
      && slot in s.staging && slot !in Apply(WELL_BEHAVED, s, Clean(e, hs)).staging
    ensures
      var s := After(WELL_BEHAVED, INITIAL, acts);
      && slot in s.production
      && exists r :: Owns(s, r, slot.height) && WrittenBy(s.staging, slot, r) && WrittenBy(s.production, slot, r)
  {
    var s := After(WELL_BEHAVED, INITIAL, acts);
    InvariantAlways(INITIAL, acts);
    assert AllPromoted(s, slot.height);
    assert InTables(s, slot);
    var r :| Owns(s, r, slot.height);
  }
}
