/** When readers of production can see part of a block: exactly while the execution that brings
    it there for the first time is between two promotions. */
module Atomicity {
  import opened CommitProtocol

  /** Production has some entity of the height, but not all twenty. */
  ghost predicate Partial(s: State, h: nat) {
    (exists e: Entity :: Slot(e, h) in s.production) && !AllPromoted(s, h)
  }

  /** The run has promoted some entities of the height and not yet all. */
  ghost predicate Midway(s: State, r: nat, h: nat) {
    && r in s.runs && s.runs[r].id.height == h && s.runs[r].phase.Promoting?
    && s.runs[r].phase.promoted != {} && !AllStaged(s.runs[r].phase.promoted)
  }

  // ---------------------------------------------------------------- invariants

  /** The run has promoted the entity, or is past all promotions. */
  ghost predicate PastPromotion(s: State, r: nat, slot: Slot) {
    && r in s.runs && s.runs[r].id.height == slot.height
    && match s.runs[r].phase
       case Promoting(promoted) => slot.entity in promoted
       case Recording(_) => true
       case Done(_) => true
       case _ => false
  }

  ghost predicate AllBrought(s: State) {
    forall slot :: slot in s.production ==> exists r :: PastPromotion(s, r, slot)
  }

  ghost predicate DoneIsLogged(s: State) {
    forall r :: r in s.runs && s.runs[r].phase.Done? ==> s.runs[r].id.height in s.log
  }

  lemma PastPromotionStays(s: State, a: Action, r: nat, slot: Slot)
    requires Enabled(WELL_BEHAVED, s, a) && PastPromotion(s, r, slot)
    ensures PastPromotion(Apply(WELL_BEHAVED, s, a), r, slot)
  {
  }

  lemma AllBroughtStep(s: State, a: Action)
    requires AllBrought(s) && Enabled(WELL_BEHAVED, s, a)
    ensures AllBrought(Apply(WELL_BEHAVED, s, a))
  {
    var s' := Apply(WELL_BEHAVED, s, a);
    forall slot | slot in s'.production ensures exists r :: PastPromotion(s', r, slot) {
      if slot in s.production {
        var r :| PastPromotion(s, r, slot);
        PastPromotionStays(s, a, r, slot);
      } else {
        assert PastPromotion(s', a.run, slot);
      }
    }
  }

  lemma DoneIsLoggedStep(s: State, a: Action)
    requires DoneIsLogged(s) && Enabled(WELL_BEHAVED, s, a)
    ensures DoneIsLogged(Apply(WELL_BEHAVED, s, a))
  {
  }

  lemma {:induction false} BroughtAlways(s: State, acts: seq<Action>)
    requires Invariant(s) && AllBrought(s) && DoneIsLogged(s) && ValidRun(WELL_BEHAVED, s, acts)
    ensures
      var s' := After(WELL_BEHAVED, s, acts);
      Invariant(s') && AllBrought(s') && DoneIsLogged(s')
    decreases |acts|
  {
    if acts != [] {
      InvariantStep(s, acts[0]);
      AllBroughtStep(s, acts[0]);
      DoneIsLoggedStep(s, acts[0]);
      BroughtAlways(Apply(WELL_BEHAVED, s, acts[0]), acts[1..]);
    }
  }

  // ---------------------------------------------------------------- main results

  /** A part of a block in production comes from an execution midway, and its height is not recorded. */
  lemma PartialIsMidway(s: State, h: nat)
    requires LogSafe(s) && PhasesSound(s) && AllBrought(s) && Partial(s, h)
    ensures h !in s.log && exists r :: Midway(s, r, h)
  {
    var e: Entity :| Slot(e, h) in s.production;
    var r :| PastPromotion(s, r, Slot(e, h));
    assert PhaseSound(s, s.runs[r]);
    assert Midway(s, r, h);
  }

  /** Nobody else has brought what an execution midway at an unrecorded height has yet to promote. */
  lemma RestIsMissing(s: State, r: nat, h: nat, e: Entity)
    requires OneLive(s) && DoneIsLogged(s) && Midway(s, r, h) && h !in s.log && e !in s.runs[r].phase.promoted
    ensures forall q :: !PastPromotion(s, q, Slot(e, h))
  {
  }

  /** So it has brought only a part. */
  lemma MidwayIsPartial(s: State, r: nat, h: nat)
    requires OneLive(s) && PhasesSound(s) && AllBrought(s) && DoneIsLogged(s) && Midway(s, r, h) && h !in s.log
    ensures Partial(s, h)
  {
    var promoted := s.runs[r].phase.promoted;
    var e: Entity :| e in promoted;
    assert PhaseSound(s, s.runs[r]) && Slot(e, h) in s.production;
    var f: Entity :| f !in promoted;
    RestIsMissing(s, r, h, f);
    assert Slot(f, h) !in s.production;
  }

  /** Over all well-behaved runs, production holds part of a block exactly while its height is unrecorded and an
      execution is midway through promoting it. In particular a reindex of a recorded height never shows a part. */
  lemma PartialExactly(acts: seq<Action>, h: nat)
    requires ValidRun(WELL_BEHAVED, INITIAL, acts)
    ensures
      var s := After(WELL_BEHAVED, INITIAL, acts);
      Partial(s, h) <==> h !in s.log && exists r :: Midway(s, r, h)
  {
    BroughtAlways(INITIAL, acts);
    var s := After(WELL_BEHAVED, INITIAL, acts);
    if Partial(s, h) {
      PartialIsMidway(s, h);
    }
    if h !in s.log && exists r :: Midway(s, r, h) {
      var r :| Midway(s, r, h);
      MidwayIsPartial(s, r, h);
    }
  }

  /** At rest it is all or nothing: without a live execution a height is completely in production or not at all. */
  lemma AllOrNothingAtRest(acts: seq<Action>, h: nat)
    requires ValidRun(WELL_BEHAVED, INITIAL, acts)
    requires
      var s := After(WELL_BEHAVED, INITIAL, acts);
      forall r :: r in s.runs && s.runs[r].id.height == h ==> !Live(s.runs[r].phase)
    ensures
      var s := After(WELL_BEHAVED, INITIAL, acts);
      AllPromoted(s, h) || forall e: Entity :: Slot(e, h) !in s.production
  {
    PartialExactly(acts, h);
  }
}
