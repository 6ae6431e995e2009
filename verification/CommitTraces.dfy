/** Runs that show each assumption of CommitSafety and CleanupSafety is needed, and how data goes blind. */
module CommitTraces {
  import opened Atomicity
  import opened Cleanup
  import opened CommitProtocol

  function StageMany(r: nat, todo: seq<Entity>): seq<Action> {
    if todo == [] then [] else [Stage(r, todo[0])] + StageMany(r, todo[1..])
  }

  function PromoteMany(r: nat, todo: seq<Entity>): seq<Action> {
    if todo == [] then [] else [Promote(r, todo[0])] + PromoteMany(r, todo[1..])
  }

  function SetOf(todo: seq<Entity>): set<Entity> {
    set e | e in todo
  }

  /** The entities staged between the events and the block summary. */
  ghost predicate Middle(es: seq<Entity>) {
    forall e: Entity :: e in es <==> e != Events && e != BlockSummaries
  }

  ghost predicate AllListed(es: seq<Entity>) {
    forall e: Entity :: e in es
  }

  lemma EntityLists() returns (rest: seq<Entity>, all: seq<Entity>)
    ensures Middle(rest) && AllListed(all)
  {
    rest := [Blocks, Txs, Accounts, Pools, Orders, DexPrices, Params, Validators, NonSigning];
    var more := [DoubleSigning, Committees, CommitteeValidators, CommitteePayments, DexOrders, DexDeposits,
                 DexWithdrawals, PoolPoints, Supply];
    forall e: Entity ensures e in rest || e in more <==> e != Events && e != BlockSummaries {
    }
    rest := rest + more;
    all := rest + [Events, BlockSummaries];
  }

  /** s' is s with run r in phase p and, at r's height, each of es staged last by r, seeing the events or not. */
  ghost predicate StagedBy(s: State, s': State, r: nat, es: set<Entity>, p: Phase, sighted: bool)
    requires r in s.runs
  {
    && s' == s.(staging := s'.staging, runs := s.runs[r := s.runs[r].(phase := p)])
    && (forall e :: e in es ==> Latest(s'.staging, Slot(e, s.runs[r].id.height)) == [Content(r, sighted)])
    && (forall slot: Slot :: !(slot.height == s.runs[r].id.height && slot.entity in es) ==>
          Contents(s'.staging, slot) == Contents(s.staging, slot))
    && (forall slot :: slot in s.staging ==> slot in s'.staging)
  }

  lemma {:induction false} StageManyRuns(
    env: Environment, s: State, r: nat, todo: seq<Entity>, staged: set<Entity>, sighted: bool)
    requires r in s.runs && s.runs[r].phase == Indexing(staged) && Events in staged
    requires Events !in todo && BlockSummaries !in todo
    requires sighted <==> Slot(Events, s.runs[r].id.height) in s.staging
    ensures ValidRun(env, s, StageMany(r, todo))
    ensures StagedBy(s, After(env, s, StageMany(r, todo)), r, SetOf(todo), Indexing(staged + SetOf(todo)), sighted)
    ensures Slot(Events, s.runs[r].id.height) in After(env, s, StageMany(r, todo)).staging <==> sighted
    decreases |todo|
  {
    if todo == [] {
      assert staged + SetOf(todo) == staged;
    } else {
      StageFirstOfMany(env, s, r, todo, staged, sighted);
      var s1 := Apply(env, s, Stage(r, todo[0]));
      StageManyRuns(env, s1, r, todo[1..], staged + {todo[0]}, sighted);
      assert StageMany(r, todo)[1..] == StageMany(r, todo[1..]);
      assert staged + SetOf(todo) == staged + {todo[0]} + SetOf(todo[1..]);
      StagedByTrans(s, s1, After(env, s1, StageMany(r, todo[1..])), r, todo, Indexing(staged + SetOf(todo)), sighted);
    }
  }

  lemma StageFirstOfMany(
    env: Environment, s: State, r: nat, todo: seq<Entity>, staged: set<Entity>, sighted: bool)
    requires r in s.runs && s.runs[r].phase == Indexing(staged) && Events in staged
    requires todo != [] && Events !in todo && BlockSummaries !in todo
    requires sighted <==> Slot(Events, s.runs[r].id.height) in s.staging
    ensures Enabled(env, s, Stage(r, todo[0]))
    ensures
      var s1 := Apply(env, s, Stage(r, todo[0]));
      && StagedBy(s, s1, r, {todo[0]}, Indexing(staged + {todo[0]}), sighted)
      && (sighted <==> Slot(Events, s.runs[r].id.height) in s1.staging)
  {
  }

  lemma StagedByTrans(s: State, s1: State, s2: State, r: nat, todo: seq<Entity>, p: Phase, sighted: bool)
    requires r in s.runs && todo != []
    requires r in s1.runs && StagedBy(s, s1, r, {todo[0]}, s1.runs[r].phase, sighted)
    requires StagedBy(s1, s2, r, SetOf(todo[1..]), p, sighted)
    ensures StagedBy(s, s2, r, SetOf(todo), p, sighted)
  {
    var h := s.runs[r].id.height;
    assert s1.runs[r := s1.runs[r].(phase := p)] == s.runs[r := s.runs[r].(phase := p)];
    forall e | e in SetOf(todo) ensures Latest(s2.staging, Slot(e, h)) == [Content(r, sighted)] {
      if e !in SetOf(todo[1..]) {
        assert e == todo[0];
        assert Contents(s2.staging, Slot(e, h)) == Contents(s1.staging, Slot(e, h));
      }
    }
    assert forall e :: e in SetOf(todo) <==> e == todo[0] || e in SetOf(todo[1..]);
  }

  lemma {:induction false} PromoteManyRuns(env: Environment, s: State, r: nat, todo: seq<Entity>, promoted: set<Entity>)
    requires r in s.runs && s.runs[r].phase == Promoting(promoted)
    requires forall slot :: slot in s.staging ==> s.staging[slot] != []
    ensures ValidRun(env, s, PromoteMany(r, todo))
    ensures
      var s' := After(env, s, PromoteMany(r, todo));
      && s' == s.(production := s'.production,
                  runs := s.runs[r := s.runs[r].(phase := Promoting(promoted + SetOf(todo)))])
      && PromotedBy(s.staging, s.production, s'.production, s.runs[r].id.height, SetOf(todo))
    decreases |todo|
  {
    if todo == [] {
      assert promoted + SetOf(todo) == promoted;
    } else {
      var s1 := Apply(env, s, Promote(r, todo[0]));
      PromoteManyRuns(env, s1, r, todo[1..], promoted + {todo[0]});
      var s2 := After(env, s1, PromoteMany(r, todo[1..]));
      assert PromoteMany(r, todo)[1..] == PromoteMany(r, todo[1..]);
      assert promoted + SetOf(todo) == promoted + {todo[0]} + SetOf(todo[1..]);
      PromotedByTrans(s.staging, s.production, s2.production, s.runs[r].id.height, todo);
    }
  }

  /** Production shows what was staged for es at h, and is untouched elsewhere and where nothing was staged. */
  ghost predicate PromotedBy(staging: Table, before: Table, now: Table, h: nat, es: set<Entity>) {
    && (forall slot :: slot in before ==> slot in now)
    && (forall e :: e in es && Slot(e, h) in staging ==> Copied(staging, now, Slot(e, h)))
    && (forall slot: Slot :: !(slot.height == h && slot.entity in es) || slot !in staging ==> Untouched(before, now, slot))
  }

  ghost predicate Copied(staging: Table, now: Table, slot: Slot) {
    slot in now && Latest(now, slot) == Latest(staging, slot)
  }

  lemma PromotedByTrans(staging: Table, before: Table, now: Table, h: nat, todo: seq<Entity>)
    requires todo != [] && forall slot :: slot in staging ==> staging[slot] != []
    requires PromotedBy(staging, PromoteSlot(before, staging, Slot(todo[0], h)), now, h, SetOf(todo[1..]))
    ensures PromotedBy(staging, before, now, h, SetOf(todo))
  {
    var first := Slot(todo[0], h);
    var next := PromoteSlot(before, staging, first);
    PromotedFirst(staging, before, first);
    assert forall e :: e in SetOf(todo) <==> e == todo[0] || e in SetOf(todo[1..]);
    forall e | e in SetOf(todo) && Slot(e, h) in staging ensures Copied(staging, now, Slot(e, h)) {
      if e !in SetOf(todo[1..]) {
        assert Untouched(next, now, first);
      }
    }
    forall slot: Slot | !(slot.height == h && slot.entity in SetOf(todo)) || slot !in staging
      ensures Untouched(before, now, slot)
    {
      assert Untouched(next, now, slot);
    }
  }

  lemma PromotedFirst(staging: Table, before: Table, first: Slot)
    requires first in staging ==> staging[first] != []
    ensures
      var now := PromoteSlot(before, staging, first);
      && (first in staging ==> Copied(staging, now, first))
      && (forall slot :: slot in before ==> slot in now)
      && (forall slot :: slot != first || first !in staging ==> Untouched(before, now, slot))
  {
    if first in staging {
      LatestInsert(before, first, staging[first], first);
    }
  }

  lemma OneStep(env: Environment, s: State, a: Action)
    requires Enabled(env, s, a)
    ensures ValidRun(env, s, [a]) && After(env, s, [a]) == Apply(env, s, a)
  {
    var t := Apply(env, s, a);
    assert [a][1..] == [];
    assert ValidRun(env, t, []);
  }

  lemma TwoSteps(env: Environment, s: State, acts: seq<Action>)
    requires |acts| == 2 && Enabled(env, s, acts[0]) && Enabled(env, Apply(env, s, acts[0]), acts[1])
    ensures ValidRun(env, s, acts) && After(env, s, acts) == Apply(env, Apply(env, s, acts[0]), acts[1])
  {
    OneStep(env, s, acts[0]);
    OneStep(env, Apply(env, s, acts[0]), acts[1]);
    RunConcat(env, s, [acts[0]], [acts[1]]);
    assert acts == [acts[0]] + [acts[1]];
  }

  lemma ThreeSteps(env: Environment, s: State, acts: seq<Action>)
    requires |acts| == 3 && Enabled(env, s, acts[0]) && Enabled(env, Apply(env, s, acts[0]), acts[1])
    requires Enabled(env, Apply(env, Apply(env, s, acts[0]), acts[1]), acts[2])
    ensures ValidRun(env, s, acts)
    ensures After(env, s, acts) == Apply(env, Apply(env, Apply(env, s, acts[0]), acts[1]), acts[2])
  {
    TwoSteps(env, s, acts[..2]);
    OneStep(env, After(env, s, acts[..2]), acts[2]);
    RunConcat(env, s, acts[..2], [acts[2]]);
    assert acts == acts[..2] + [acts[2]];
  }

  // ---------------------------------------------------------------- one run, piece by piece

  /** Start a run, pass the skip test and stage the events. */
  function StageEvents(r: nat, id: WorkflowId): seq<Action> {
    [Start(r, id), Prepare(r), Stage(r, Events)]
  }

  lemma StageEventsRuns(env: Environment, s: State, r: nat, id: WorkflowId)
    requires Enabled(env, s, Start(r, id)) && (id.Reindex? || Slot(Blocks, id.height) !in s.production)
    ensures ValidRun(env, s, StageEvents(r, id))
    ensures After(env, s, StageEvents(r, id))
         == s.(staging := StageSlot(s.staging, r, Slot(Events, id.height)), runs := s.runs[r := Run(id, Indexing({Events}))])
  {
    var acts := StageEvents(r, id);
    ThreeSteps(env, s, acts);
    var s1 := Apply(env, s, acts[0]);
    var s2 := Apply(env, s1, acts[1]);
    assert s2 == s.(runs := s.runs[r := Run(id, Preparing)][r := Run(id, Indexing({}))]);
    var none: set<Entity> := {};
    assert none + {Events} == {Events};
    UpdateTwice(s.runs, r, Run(id, Preparing), Run(id, Indexing({})));
    UpdateTwice(s.runs, r, Run(id, Indexing({})), Run(id, Indexing({Events})));
  }

  lemma UpdateTwice<K, V>(m: map<K, V>, k: K, a: V, b: V)
    ensures m[k := a][k := b] == m[k := b]
  {
  }

  /** Everything after the events. */
  function StageRest(r: nat, rest: seq<Entity>): seq<Action> {
    StageMany(r, rest) + [Stage(r, BlockSummaries)]
  }

  /** s' has run r ready to promote: everything but its events staged last by r, seeing the events or not. */
  ghost predicate ReadyToPromote(s: State, s': State, r: nat, sighted: bool)
    requires r in s.runs
  {
    var h := s.runs[r].id.height;
    && r in s'.runs && s'.runs[r].phase.Indexing? && AllStaged(s'.runs[r].phase.staged)
    && s' == s.(staging := s'.staging, runs := s.runs[r := s.runs[r].(phase := s'.runs[r].phase)])
    && (forall e: Entity :: e != Events ==> Latest(s'.staging, Slot(e, h)) == [Content(r, sighted)])
    && Contents(s'.staging, Slot(Events, h)) == Contents(s.staging, Slot(Events, h))
    && (Slot(Events, h) in s'.staging <==> Slot(Events, h) in s.staging)
  }

  lemma StageRestRuns(env: Environment, s: State, r: nat, rest: seq<Entity>)
    requires Middle(rest) && r in s.runs && s.runs[r].phase == Indexing({Events})
    ensures ValidRun(env, s, StageRest(r, rest))
    ensures ReadyToPromote(s, After(env, s, StageRest(r, rest)), r, Slot(Events, s.runs[r].id.height) in s.staging)
  {
    var h, sighted := s.runs[r].id.height, Slot(Events, s.runs[r].id.height) in s.staging;
    StageManyRuns(env, s, r, rest, {Events}, sighted);
    var s1 := After(env, s, StageMany(r, rest));
    assert forall e: Entity :: e != BlockSummaries ==> e in {Events} + SetOf(rest);
    StageSummary(env, s1, r);
    RunConcat(env, s, StageMany(r, rest), [Stage(r, BlockSummaries)]);
    var s2 := After(env, s, StageRest(r, rest));
    StagedToTheEnd(s1.staging, r, h, rest, sighted);
    UpdateTwice(s.runs, r, s1.runs[r], s2.runs[r]);
  }

  lemma StagedToTheEnd(staging: Table, r: nat, h: nat, rest: seq<Entity>, sighted: bool)
    requires Middle(rest) && (sighted <==> Slot(Events, h) in staging)
    requires forall e :: e in SetOf(rest) ==> Latest(staging, Slot(e, h)) == [Content(r, sighted)]
    ensures
      var staging' := StageSlot(staging, r, Slot(BlockSummaries, h));
      && (forall e: Entity :: e != Events ==> Latest(staging', Slot(e, h)) == [Content(r, sighted)])
      && Contents(staging', Slot(Events, h)) == Contents(staging, Slot(Events, h))
      && (Slot(Events, h) in staging' <==> Slot(Events, h) in staging)
  {
    var staging' := StageSlot(staging, r, Slot(BlockSummaries, h));
    forall e: Entity | e != Events ensures Latest(staging', Slot(e, h)) == [Content(r, sighted)] {
      if e != BlockSummaries {
        assert e in SetOf(rest);
        assert Contents(staging', Slot(e, h)) == Contents(staging, Slot(e, h));
      }
    }
  }

  lemma StageSummary(env: Environment, s: State, r: nat)
    requires r in s.runs && s.runs[r].phase.Indexing?
    requires forall e: Entity :: e != BlockSummaries ==> e in s.runs[r].phase.staged
    ensures ValidRun(env, s, [Stage(r, BlockSummaries)])
    ensures
      var s' := After(env, s, [Stage(r, BlockSummaries)]);
      var staged := s.runs[r].phase.staged + {BlockSummaries};
      && s' == s.(staging := StageSlot(s.staging, r, Slot(BlockSummaries, s.runs[r].id.height)),
                  runs := s.runs[r := s.runs[r].(phase := Indexing(staged))])
      && AllStaged(staged)
  {
    OneStep(env, s, Stage(r, BlockSummaries));
  }

  /** Production shows everything staged at h, and is untouched where nothing was. */
  ghost predicate Finished(s: State, production: Table, h: nat) {
    && (forall e: Entity :: Slot(e, h) in s.staging ==>
          Slot(e, h) in production && Latest(production, Slot(e, h)) == Latest(s.staging, Slot(e, h)))
    && (forall slot: Slot :: slot !in s.staging ==> Contents(production, slot) == Contents(s.production, slot))
    && (forall slot :: slot in s.production ==> slot in production)
  }

  lemma PromoteAllRuns(env: Environment, s: State, r: nat) returns (acts: seq<Action>, promoted: set<Entity>)
    requires r in s.runs && s.runs[r].phase.Indexing? && AllStaged(s.runs[r].phase.staged) && NoEmptySlots(s)
    ensures ValidRun(env, s, acts) && AllStaged(promoted)
    ensures
      var s' := After(env, s, acts);
      && s' == s.(production := s'.production, runs := s.runs[r := s.runs[r].(phase := Promoting(promoted))])
      && Finished(s, s'.production, s.runs[r].id.height)
  {
    var _, all := EntityLists();
    OneStep(env, s, BeginPromotion(r));
    var s1 := Apply(env, s, BeginPromotion(r));
    PromoteManyRuns(env, s1, r, all, {});
    RunConcat(env, s, [BeginPromotion(r)], PromoteMany(r, all));
    acts := [BeginPromotion(r)] + PromoteMany(r, all);
    promoted := {} + SetOf(all);
    UpdateTwice(s.runs, r, s1.runs[r], s.runs[r].(phase := Promoting(promoted)));
  }

  /** Promote everything and record. */
  lemma FinishRun(env: Environment, s: State, r: nat) returns (acts: seq<Action>)
    requires r in s.runs && s.runs[r].phase.Indexing? && AllStaged(s.runs[r].phase.staged) && NoEmptySlots(s)
    requires Slot(Blocks, s.runs[r].id.height) in s.staging
    ensures ValidRun(env, s, acts)
    ensures
      var s' := After(env, s, acts);
      var h := s.runs[r].id.height;
      && s' == s.(production := s'.production, log := s.log + [h], runs := s.runs[r := s.runs[r].(phase := Done(false))])
      && Finished(s, s'.production, h)
  {
    var promoted;
    acts, promoted := PromoteAllRuns(env, s, r);
    var s2 := After(env, s, acts);
    assert Slot(Blocks, s.runs[r].id.height) in s2.production;
    RecordRuns(env, s2, r, promoted);
    RunConcat(env, s, acts, [BeginRecord(r), Record(r)]);
    acts := acts + [BeginRecord(r), Record(r)];
    UpdateTwice(s.runs, r, s2.runs[r], s.runs[r].(phase := Done(false)));
  }

  lemma RecordRuns(env: Environment, s: State, r: nat, promoted: set<Entity>)
    requires r in s.runs && s.runs[r].phase == Promoting(promoted) && AllStaged(promoted)
    requires Slot(Blocks, s.runs[r].id.height) in s.production
    ensures ValidRun(env, s, [BeginRecord(r), Record(r)])
    ensures After(env, s, [BeginRecord(r), Record(r)])
         == s.(log := s.log + [s.runs[r].id.height], runs := s.runs[r := s.runs[r].(phase := Done(false))])
  {
    TwoSteps(env, s, [BeginRecord(r), Record(r)]);
    UpdateTwice(s.runs, r, s.runs[r].(phase := Recording(false)), s.runs[r].(phase := Done(false)));
  }

  /** The same at the end of a run from the start. */
  lemma FinishFrom(env: Environment, acts: seq<Action>, r: nat) returns (all: seq<Action>)
    requires ValidRun(env, INITIAL, acts)
    requires
      var s := After(env, INITIAL, acts);
      && r in s.runs && s.runs[r].phase.Indexing? && AllStaged(s.runs[r].phase.staged)
      && Slot(Blocks, s.runs[r].id.height) in s.staging
    ensures ValidRun(env, INITIAL, all)
    ensures
      var s, s' := After(env, INITIAL, acts), After(env, INITIAL, all);
      var h := s.runs[r].id.height;
      && s' == s.(production := s'.production, log := s.log + [h], runs := s.runs[r := s.runs[r].(phase := Done(false))])
      && Finished(s, s'.production, h) && NoEmptySlots(s')
  {
    NoEmptySlotsAlways(env, INITIAL, acts);
    var last := FinishRun(env, After(env, INITIAL, acts), r);
    RunConcat(env, INITIAL, acts, last);
    all := acts + last;
    NoEmptySlotsAlways(env, INITIAL, all);
  }

  // ---------------------------------------------------------------- commit safety needs both assumptions

  /** Run 0 alone has staged everything, and nothing is in production yet. */
  lemma StagedFirst(env: Environment, id: WorkflowId) returns (acts: seq<Action>)
    ensures ValidRun(env, INITIAL, acts)
    ensures
      var s := After(env, INITIAL, acts);
      && s.production == map[] && s.log == [] && s.cleanable == {} && s.runs.Keys == {0} && s.runs[0].id == id
      && s.runs[0].phase.Indexing? && AllStaged(s.runs[0].phase.staged) && NoEmptySlots(s)
      && forall e: Entity :: Slot(e, id.height) in s.staging && Latest(s.staging, Slot(e, id.height)) == [Content(0, true)]
  {
    var rest, _ := EntityLists();
    StageEventsRuns(env, INITIAL, 0, id);
    StageRestRuns(env, After(env, INITIAL, StageEvents(0, id)), 0, rest);
    RunConcat(env, INITIAL, StageEvents(0, id), StageRest(0, rest));
    acts := StageEvents(0, id) + StageRest(0, rest);
    NoEmptySlotsAlways(env, INITIAL, acts);
  }

  /** For every height and either kind of execution, a run of every environment that has promoted the block row and
      nothing else: readers of production see part of the block. */
  lemma HalfPromoted(env: Environment, id: WorkflowId) returns (acts: seq<Action>)
    ensures ValidRun(env, INITIAL, acts)
    ensures
      var s := After(env, INITIAL, acts);
      && Slot(Blocks, id.height) in s.production && Slot(Txs, id.height) !in s.production && s.log == []
      && s.runs.Keys == {0} && s.runs[0].id == id && s.runs[0].phase == Promoting({Blocks})
      && Partial(s, id.height)
  {
    acts := StagedFirst(env, id);
    var tail := [BeginPromotion(0), Promote(0, Blocks)];
    TwoSteps(env, After(env, INITIAL, acts), tail);
    RunConcat(env, INITIAL, acts, tail);
    acts := acts + tail;
  }

  /** A recorded height lacks its transactions. */
  ghost predicate Torn(env: Environment, acts: seq<Action>, h: nat) {
    && ValidRun(env, INITIAL, acts)
    && h in After(env, INITIAL, acts).log && Slot(Txs, h) !in After(env, INITIAL, acts).production
  }

  /** A second first-time run that finds the block row skips the height and records it. */
  lemma SkipAndRecord(env: Environment, acts: seq<Action>, h: nat) returns (all: seq<Action>)
    requires ValidRun(env, INITIAL, acts)
    requires
      var s := After(env, INITIAL, acts);
      Slot(Blocks, h) in s.production && Slot(Txs, h) !in s.production && Enabled(env, s, Start(1, Index(h)))
    ensures Torn(env, all, h)
  {
    var tail := [Start(1, Index(h)), Prepare(1), Record(1)];
    ThreeSteps(env, After(env, INITIAL, acts), tail);
    RunConcat(env, INITIAL, acts, tail);
    all := acts + tail;
  }

  /** If runs may be terminated midway, any recorded height can lack transactions. */
  lemma KillBreaksCommit(env: Environment, h: nat) returns (acts: seq<Action>)
    requires env.mayKill
    ensures Torn(env, acts, h)
  {
    var half := HalfPromoted(env, Index(h));
    OneStep(env, After(env, INITIAL, half), Kill(0));
    RunConcat(env, INITIAL, half, [Kill(0)]);
    acts := SkipAndRecord(env, half + [Kill(0)], h);
  }

  /** If a reindex run and a first-time run of one height may overlap, any recorded height can lack transactions. */
  lemma OverlapBreaksCommit(env: Environment, h: nat) returns (acts: seq<Action>)
    requires !env.oneRunPerHeight
    ensures Torn(env, acts, h)
  {
    var half := HalfPromoted(env, Reindex(h, 7));
    acts := SkipAndRecord(env, half, h);
  }

  /** In every environment, with or without late repetitions: recorded heights are complete over all runs exactly when
      one execution at most is live per height and none is terminated midway. */
  lemma CommitSafetyExactly(env: Environment)
    ensures env.Serial() <==>
            forall acts, h :: ValidRun(env, INITIAL, acts) && h in After(env, INITIAL, acts).log ==>
                                AllPromoted(After(env, INITIAL, acts), h)
  {
    if env.Serial() {
      forall acts, h | ValidRun(env, INITIAL, acts) && h in After(env, INITIAL, acts).log
        ensures AllPromoted(After(env, INITIAL, acts), h)
      {
        SerialIsWellBehaved(env, INITIAL, acts);
        CommitSafety(acts, h);
      }
    } else {
      var acts;
      if env.mayKill {
        acts := KillBreaksCommit(env, 1);
      } else {
        acts := OverlapBreaksCommit(env, 1);
      }
      assert 1 in After(env, INITIAL, acts).log && !AllPromoted(After(env, INITIAL, acts), 1);
    }
  }

  // ---------------------------------------------------------------- cleanup under a reindex, and late repetitions

  /** Height h is recorded by run 0, the only one so far. */
  ghost predicate RecordedOnce(s: State, h: nat) {
    && s.log == [h] && s.cleanable == {} && s.runs == map[0 := Run(Index(h), Done(false))] && NoEmptySlots(s)
    && forall e: Entity ::
         && Slot(e, h) in s.staging && Latest(s.staging, Slot(e, h)) == [Content(0, true)]
         && Slot(e, h) in s.production && Latest(s.production, Slot(e, h)) == [Content(0, true)]
  }

  lemma FirstRecorded(env: Environment, h: nat) returns (acts: seq<Action>)
    ensures ValidRun(env, INITIAL, acts) && RecordedOnce(After(env, INITIAL, acts), h)
  {
    acts := StagedFirst(env, Index(h));
    acts := FinishFrom(env, acts, 0);
  }

  function CleanNow(e: Entity, h: nat): seq<Action> {
    [ReadCleanable({h}), Clean(e, {h})]
  }

  lemma CleanNowRuns(env: Environment, s: State, e: Entity, h: nat)
    requires h in s.log
    ensures ValidRun(env, s, CleanNow(e, h))
    ensures After(env, s, CleanNow(e, h))
         == s.(staging := CleanSlots(s.staging, e, {h}), cleanable := s.cleanable + {h})
  {
    TwoSteps(env, s, CleanNow(e, h));
  }

  /** After the first run, reindex run 1 has staged its events. */
  lemma ReindexStarted(env: Environment, h: nat) returns (acts: seq<Action>)
    ensures ValidRun(env, INITIAL, acts)
    ensures
      var s := After(env, INITIAL, acts);
      && s.log == [h] && s.runs == map[0 := Run(Index(h), Done(false)), 1 := Run(Reindex(h, 7), Indexing({Events}))]
      && (forall e: Entity :: Slot(e, h) in s.staging && Slot(e, h) in s.production)
      && (forall e: Entity :: Latest(s.production, Slot(e, h)) == [Content(0, true)])
  {
    acts := FirstRecorded(env, h);
    var s := After(env, INITIAL, acts);
    StageEventsRuns(env, s, 1, Reindex(h, 7));
    RunConcat(env, INITIAL, acts, StageEvents(1, Reindex(h, 7)));
    acts := acts + StageEvents(1, Reindex(h, 7));
  }

  /** It has staged everything, and a cleanup has taken its transactions. */
  lemma ReindexCleaned(h: nat) returns (acts: seq<Action>)
    ensures ValidRun(PROMPT, INITIAL, acts)
    ensures
      var s := After(PROMPT, INITIAL, acts);
      && 1 in s.runs && s.runs[1].id == Reindex(h, 7) && s.runs[1].phase.Indexing? && AllStaged(s.runs[1].phase.staged)
      && Slot(Blocks, h) in s.staging && Slot(Txs, h) !in s.staging
      && Latest(s.production, Slot(Txs, h)) == [Content(0, true)]
  {
    acts := ReindexStarted(PROMPT, h);
    acts := StageRestFrom(acts, 1);
    var s := After(PROMPT, INITIAL, acts);
    CleanNowRuns(PROMPT, s, Txs, h);
    RunConcat(PROMPT, INITIAL, acts, CleanNow(Txs, h));
    acts := acts + CleanNow(Txs, h);
  }

  lemma StageRestFrom(acts: seq<Action>, r: nat) returns (all: seq<Action>)
    requires ValidRun(PROMPT, INITIAL, acts)
    requires
      var s := After(PROMPT, INITIAL, acts);
      r in s.runs && s.runs[r].phase == Indexing({Events})
    ensures ValidRun(PROMPT, INITIAL, all)
    ensures
      var s, s' := After(PROMPT, INITIAL, acts), After(PROMPT, INITIAL, all);
      var h := s.runs[r].id.height;
      && ReadyToPromote(s, s', r, Slot(Events, h) in s.staging) && Slot(Blocks, h) in s'.staging
  {
    var rest, _ := EntityLists();
    var s := After(PROMPT, INITIAL, acts);
    StageRestRuns(PROMPT, s, r, rest);
    RunConcat(PROMPT, INITIAL, acts, StageRest(r, rest));
    all := acts + StageRest(r, rest);
  }

  /** A cleanup can make a live reindex finish without its data, in the best of environments: a lost update. */
  lemma CleanupLosesReindex(h: nat) returns (acts: seq<Action>)
    ensures ValidRun(PROMPT, INITIAL, acts)
    ensures
      var s := After(PROMPT, INITIAL, acts);
      && 1 in s.runs && s.runs[1] == Run(Reindex(h, 7), Done(false))
      && Latest(s.production, Slot(Txs, h)) == [Content(0, true)]
  {
    acts := ReindexCleaned(h);
    acts := FinishFrom(PROMPT, acts, 1);
  }

  /** In the best of environments, a cleanup between a reindex's events and its other activities makes the reindex
      promote data computed as if the height had no events. */
  lemma ReindexGoesBlind(h: nat) returns (acts: seq<Action>)
    ensures ValidRun(PROMPT, INITIAL, acts)
    ensures
      var s := After(PROMPT, INITIAL, acts);
      && s.log == [h, h] && 1 in s.runs && s.runs[1] == Run(Reindex(h, 7), Done(false))
      && forall e: Entity :: e != Events ==> Latest(s.production, Slot(e, h)) == [Content(1, false)]
  {
    acts := ReindexStarted(PROMPT, h);
    CleanNowRuns(PROMPT, After(PROMPT, INITIAL, acts), Events, h);
    RunConcat(PROMPT, INITIAL, acts, CleanNow(Events, h));
    acts := StageRestFrom(acts + CleanNow(Events, h), 1);
    var s := After(PROMPT, INITIAL, acts);
    forall e: Entity | e != Events ensures Slot(e, h) in s.staging {
      assert Latest(s.staging, Slot(e, h)) == [Content(1, false)];
    }
    acts := FinishFrom(PROMPT, acts, 1);
  }

  /** With a single first-time execution, a late repetition after the cleanup stages blind data for any entity. */
  lemma LateRepetition(h: nat, e: Entity) returns (acts: seq<Action>)
    requires e != Events
    ensures ValidRun(WELL_BEHAVED, INITIAL, acts)
    ensures
      var s := After(WELL_BEHAVED, INITIAL, acts);
      && s.log == [h] && h in s.cleanable && s.runs == map[0 := Run(Index(h), Done(false))]
      && Slot(e, h) in s.staging && Latest(s.staging, Slot(e, h)) == [Content(0, false)]
      && Slot(e, h) in s.production && Latest(s.production, Slot(e, h)) == [Content(0, true)]
  {
    acts := FirstRecorded(WELL_BEHAVED, h);
    CleanNowRuns(WELL_BEHAVED, After(WELL_BEHAVED, INITIAL, acts), Events, h);
    RunConcat(WELL_BEHAVED, INITIAL, acts, CleanNow(Events, h));
    acts := acts + CleanNow(Events, h);
    OneStep(WELL_BEHAVED, After(WELL_BEHAVED, INITIAL, acts), Stage(0, e));
    RunConcat(WELL_BEHAVED, INITIAL, acts, [Stage(0, e)]);
    acts := acts + [Stage(0, e)];
  }

  /** Promoted late as well, it hides the rows of the recorded height. */
  lemma LateRepetitionGoesBlind(h: nat, e: Entity) returns (acts: seq<Action>)
    requires e != Events
    ensures ValidRun(WELL_BEHAVED, INITIAL, acts)
    ensures
      var s := After(WELL_BEHAVED, INITIAL, acts);
      s.log == [h] && s.runs.Keys == {0} && Latest(s.production, Slot(e, h)) == [Content(0, false)]
  {
    acts := LateRepetition(h, e);
    var s := After(WELL_BEHAVED, INITIAL, acts);
    OneStep(WELL_BEHAVED, s, Promote(0, e));
    RunConcat(WELL_BEHAVED, INITIAL, acts, [Promote(0, e)]);
    LatestInsert(s.production, Slot(e, h), s.staging[Slot(e, h)], Slot(e, h));
    acts := acts + [Promote(0, e)];
  }

  /** Cleaned up instead, it is a deleted slot that production does not show, with no execution live at all: the
      cleanup result needs late repetitions ruled out. */
  lemma LateRepetitionIsDeleted(h: nat, e: Entity) returns (acts: seq<Action>)
    requires e != Events
    ensures ValidRun(WELL_BEHAVED, INITIAL, acts)
    ensures
      var s := After(WELL_BEHAVED, INITIAL, acts);
      && Enabled(WELL_BEHAVED, s, Clean(e, {h})) && Slot(e, h) in s.staging && !Current(s, Slot(e, h))
      && forall r :: r in s.runs ==> !Live(s.runs[r].phase)
  {
    acts := LateRepetition(h, e);
    var s := After(WELL_BEHAVED, INITIAL, acts);
    var slot := Slot(e, h);
    if Current(s, slot) {
      SuffixLast(s.staging[slot], s.production[slot]);
      assert false;
    }
  }
}
