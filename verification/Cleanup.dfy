/** What the staging cleanup may delete while attempts are not repeated late: everything except
    data a live reindex has staged and not yet promoted. */
module Cleanup {
  import opened CommitProtocol

  ghost predicate IsSuffix<T>(a: seq<T>, b: seq<T>) {
    |a| <= |b| && b[|b| - |a|..] == a
  }

  /** Everything staged in the slot is in production, and nothing was inserted there since: a reader sees
      exactly the staged rows. */
  ghost predicate Current(s: State, slot: Slot) {
    slot in s.production && IsSuffix(Contents(s.staging, slot), s.production[slot])
  }

  /** The run has staged the entity and has yet to promote it. */
  ghost predicate ToPromote(s: State, r: nat, slot: Slot) {
    && r in s.runs && s.runs[r].id.height == slot.height
    && match s.runs[r].phase
       case Indexing(staged) => slot.entity in staged
       case Promoting(promoted) => slot.entity !in promoted
       case _ => false
  }

  /** The run is on its way to promote the entity for the first time. */
  ghost predicate Unpromoted(s: State, r: nat, slot: Slot) {
    && r in s.runs && s.runs[r].id.height == slot.height
    && (s.runs[r].phase.Preparing? || s.runs[r].phase.Indexing?
        || (s.runs[r].phase.Promoting? && slot.entity !in s.runs[r].phase.promoted))
  }

  ghost predicate LiveReindex(s: State, r: nat, h: nat) {
    r in s.runs && s.runs[r].id.Reindex? && s.runs[r].id.height == h && Live(s.runs[r].phase)
  }

  // ---------------------------------------------------------------- invariants

  ghost predicate Accounted(s: State) {
    forall slot :: slot in s.staging ==> Current(s, slot) || exists r :: ToPromote(s, r, slot)
  }

  ghost predicate FirstWritersUnlogged(s: State) {
    forall r :: r in s.runs && s.runs[r].id.Index? && Live(s.runs[r].phase) && Writes(s.runs[r].phase) ==>
      s.runs[r].id.height !in s.log
  }

  ghost predicate RunsKnown(s: State) {
    forall slot, c :: c in Contents(s.staging, slot) || c in Contents(s.production, slot) ==> c.run in s.runs
  }

  ghost predicate OwnAfterwards(s: State) {
    forall r, slot, c :: Unpromoted(s, r, slot) && c in Contents(s.production, slot) ==> c.run != r
  }

  ghost predicate StagedLast(s: State) {
    forall r, slot :: ToPromote(s, r, slot) && slot in s.staging ==>
      s.staging[slot] != [] && s.staging[slot][|s.staging[slot]| - 1].run == r
  }

  ghost predicate CleanupInvariant(s: State) {
    Accounted(s) && FirstWritersUnlogged(s) && RunsKnown(s) && OwnAfterwards(s) && StagedLast(s)
  }

  lemma AppendIsSuffix<T>(a: seq<T>, b: seq<T>)
    ensures IsSuffix(b, a + b)
  {
  }

  lemma AccountedStep(s: State, a: Action)
    requires Accounted(s) && Enabled(PROMPT, s, a)
    ensures Accounted(Apply(PROMPT, s, a))
  {
    var s' := Apply(PROMPT, s, a);
    forall slot | slot in s'.staging ensures Current(s', slot) || exists r :: ToPromote(s', r, slot) {
      AccountedAt(s, a, slot);
    }
  }

  lemma AccountedAt(s: State, a: Action, slot: Slot)
    requires Accounted(s) && Enabled(PROMPT, s, a) && slot in Apply(PROMPT, s, a).staging
    ensures Current(Apply(PROMPT, s, a), slot) || exists r :: ToPromote(Apply(PROMPT, s, a), r, slot)
  {
    var s' := Apply(PROMPT, s, a);
    if a.Stage? && slot == Slot(a.entity, s.runs[a.run].id.height) {
      assert ToPromote(s', a.run, slot);
    } else if a.Promote? && slot == Slot(a.entity, s.runs[a.run].id.height) {
      AppendIsSuffix(Contents(s.production, slot), s.staging[slot]);
    } else if !Current(s, slot) {
      var r :| ToPromote(s, r, slot);
      assert ToPromote(s', r, slot);
    }
  }

  lemma FirstWritersStep(s: State, a: Action)
    requires Invariant(s) && FirstWritersUnlogged(s) && Enabled(PROMPT, s, a)
    ensures FirstWritersUnlogged(Apply(PROMPT, s, a))
  {
    var s' := Apply(PROMPT, s, a);
    forall r | r in s'.runs && s'.runs[r].id.Index? && Live(s'.runs[r].phase) && Writes(s'.runs[r].phase)
      ensures s'.runs[r].id.height !in s'.log
    {
      if a.Prepare? && a.run == r {
        assert s.runs[r].id.height in s.log ==> AllPromoted(s, s.runs[r].id.height);
      }
    }
  }

  lemma RunsKnownStep(s: State, a: Action)
    requires RunsKnown(s) && Enabled(PROMPT, s, a)
    ensures RunsKnown(Apply(PROMPT, s, a))
  {
    var s' := Apply(PROMPT, s, a);
    forall slot, c | c in Contents(s'.staging, slot) || c in Contents(s'.production, slot) ensures c.run in s'.runs {
      ContentsStep(PROMPT, s, a, slot, c);
    }
  }

  lemma OwnAfterwardsStep(s: State, a: Action)
    requires OneLive(s) && RunsKnown(s) && OwnAfterwards(s) && Enabled(PROMPT, s, a)
    ensures OwnAfterwards(Apply(PROMPT, s, a))
  {
    var s' := Apply(PROMPT, s, a);
    forall r, slot, c | Unpromoted(s', r, slot) && c in Contents(s'.production, slot) ensures c.run != r {
      ContentsStep(PROMPT, s, a, slot, c);
      if r in s.runs {
        assert Unpromoted(s, r, slot);
      }
    }
  }

  lemma StagedLastStep(s: State, a: Action)
    requires OneLive(s) && StagedLast(s) && Enabled(PROMPT, s, a)
    ensures StagedLast(Apply(PROMPT, s, a))
  {
    var s' := Apply(PROMPT, s, a);
    forall r, slot | ToPromote(s', r, slot) && slot in s'.staging
      ensures s'.staging[slot] != [] && s'.staging[slot][|s'.staging[slot]| - 1].run == r
    {
      if a.Stage? && slot == Slot(a.entity, s.runs[a.run].id.height) {
        assert r == a.run;
      } else {
        assert ToPromote(s, r, slot);
      }
    }
  }

  lemma {:induction false} CleanupInvariantAlways(s: State, acts: seq<Action>)
    requires Invariant(s) && CleanupInvariant(s) && ValidRun(PROMPT, s, acts)
    ensures Invariant(After(PROMPT, s, acts)) && CleanupInvariant(After(PROMPT, s, acts))
    decreases |acts|
  {
    if acts != [] {
      var a := acts[0];
      assert Enabled(WELL_BEHAVED, s, a);
      InvariantStep(s, a);
      AccountedStep(s, a);
      FirstWritersStep(s, a);
      RunsKnownStep(s, a);
      OwnAfterwardsStep(s, a);
      StagedLastStep(s, a);
      CleanupInvariantAlways(Apply(PROMPT, s, a), acts[1..]);
    }
  }

  // ---------------------------------------------------------------- main results

  /** The cleanup deletes this slot now. */
  ghost predicate Deletes(acts: seq<Action>, e: Entity, hs: set<nat>, slot: Slot) {
    && ValidRun(PROMPT, INITIAL, acts)
    && var s := After(PROMPT, INITIAL, acts);
       && Enabled(PROMPT, s, Clean(e, hs))
       && slot in s.staging && slot !in Apply(PROMPT, s, Clean(e, hs)).staging
  }

  /** A deleted slot is current in production exactly when no live reindex of its height has staged it and has yet to
      promote it; first-time executions can never be hit. */
  lemma CleanupExact(acts: seq<Action>, e: Entity, hs: set<nat>, slot: Slot)
    requires Deletes(acts, e, hs, slot)
    ensures
      var s := After(PROMPT, INITIAL, acts);
      Current(s, slot) <==> !exists r :: LiveReindex(s, r, slot.height) && ToPromote(s, r, slot)
  {
    Reached(acts);
    DeletedIsLogged(After(PROMPT, INITIAL, acts), e, hs, slot);
    RecordedExact(After(PROMPT, INITIAL, acts), slot);
  }

  lemma Reached(acts: seq<Action>)
    requires ValidRun(PROMPT, INITIAL, acts)
    ensures Invariant(After(PROMPT, INITIAL, acts)) && CleanupInvariant(After(PROMPT, INITIAL, acts))
  {
    CleanupInvariantAlways(INITIAL, acts);
  }

  lemma DeletedIsLogged(s: State, e: Entity, hs: set<nat>, slot: Slot)
    requires CleanableLogged(s) && Enabled(PROMPT, s, Clean(e, hs))
    requires slot in s.staging && slot !in Apply(PROMPT, s, Clean(e, hs)).staging
    ensures slot.height in s.log
  {
  }

  lemma RecordedExact(s: State, slot: Slot)
    requires CleanupInvariant(s) && slot in s.staging && slot.height in s.log
    ensures Current(s, slot) <==> !exists r :: LiveReindex(s, r, slot.height) && ToPromote(s, r, slot)
  {
    if r :| LiveReindex(s, r, slot.height) && ToPromote(s, r, slot) {
      PendingIsNotCurrent(s, r, slot);
    }
    assert forall r :: ToPromote(s, r, slot) ==> LiveReindex(s, r, slot.height);
  }

  lemma PendingIsNotCurrent(s: State, r: nat, slot: Slot)
    requires OwnAfterwards(s) && StagedLast(s) && ToPromote(s, r, slot) && slot in s.staging
    ensures !Current(s, slot)
  {
    assert Unpromoted(s, r, slot);
    if Current(s, slot) {
      SuffixLast(s.staging[slot], s.production[slot]);
    }
  }

  lemma SuffixLast<T>(a: seq<T>, b: seq<T>)
    requires IsSuffix(a, b) && a != []
    ensures b != [] && b[|b| - 1] == a[|a| - 1] && a[|a| - 1] in b
  {
    assert b[|b| - |a|..][|a| - 1] == b[|b| - 1];
  }

  /** In particular, at a height without a live reindex nothing is deleted that production does not already show. */
  lemma CleanupSafety(acts: seq<Action>, e: Entity, hs: set<nat>, slot: Slot)
    requires Deletes(acts, e, hs, slot)
    requires forall r :: !LiveReindex(After(PROMPT, INITIAL, acts), r, slot.height)
    ensures Current(After(PROMPT, INITIAL, acts), slot)
  {
    CleanupExact(acts, e, hs, slot);
  }
}
