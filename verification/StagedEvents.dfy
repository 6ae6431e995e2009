/** When indexing sees the events of its height: the activities that need them read the
    staging table, which the cleanup may have emptied by then. */
module StagedEvents {
  import opened Cleanup
  import opened CommitProtocol
  import opened Lists
  import opened Snapshots

  ghost predicate AllSighted(cs: seq<Content>) {
    forall c :: c in cs ==> c.sighted
  }

  ghost predicate SightedAt(s: State, h: nat) {
    forall e: Entity :: AllSighted(Contents(s.staging, Slot(e, h))) && AllSighted(Contents(s.production, Slot(e, h)))
  }

  /** A run of the height is past its own events and still indexing: its other activities may need them. */
  ghost predicate NeedsEvents(s: State, r: nat, h: nat) {
    r in s.runs && s.runs[r].id.height == h && s.runs[r].phase.Indexing? && Events in s.runs[r].phase.staged
  }

  ghost predicate EventsThere(s: State, h: nat) {
    forall r :: NeedsEvents(s, r, h) ==> Slot(Events, h) in s.staging
  }

  /** Along the run no cleanup of the events of h comes while a run of h needs them. */
  ghost predicate EventsKept(env: Environment, s: State, acts: seq<Action>, h: nat)
    requires ValidRun(env, s, acts)
    decreases |acts|
  {
    acts == []
    || (!TakesEvents(s, acts[0], h) && EventsKept(env, Apply(env, s, acts[0]), acts[1..], h))
  }

  ghost predicate TakesEvents(s: State, a: Action, h: nat) {
    a.Clean? && a.entity == Events && h in a.heights && exists r :: NeedsEvents(s, r, h)
  }

  /** Staged data is blind exactly when the activity finds the events gone, and a first-time execution never does. */
  lemma BlindStage(acts: seq<Action>, r: nat, e: Entity)
    requires ValidRun(PROMPT, INITIAL, acts) && e != Events
    requires Enabled(PROMPT, After(PROMPT, INITIAL, acts), Stage(r, e))
    ensures
      var s := After(PROMPT, INITIAL, acts);
      var slot := Slot(e, s.runs[r].id.height);
      && (Latest(Apply(PROMPT, s, Stage(r, e)).staging, slot) == [Content(r, false)]
          <==> Slot(Events, slot.height) !in s.staging)
      && (Slot(Events, slot.height) !in s.staging ==> LiveReindex(s, r, slot.height))
  {
    var s := After(PROMPT, INITIAL, acts);
    Reached(acts);
    var h := s.runs[r].id.height;
    assert NeedsEvents(s, r, h);
    FirstRunsKeepEvents(INITIAL, acts, h);
  }

  lemma SightedStep(s: State, a: Action, h: nat)
    requires SightedAt(s, h) && EventsThere(s, h) && Enabled(PROMPT, s, a) && !TakesEvents(s, a, h)
    ensures SightedAt(Apply(PROMPT, s, a), h) && EventsThere(Apply(PROMPT, s, a), h)
  {
    var s' := Apply(PROMPT, s, a);
    forall e: Entity, c | c in Contents(s'.staging, Slot(e, h)) || c in Contents(s'.production, Slot(e, h))
      ensures c.sighted
    {
      ContentsStep(PROMPT, s, a, Slot(e, h), c);
      if a.Stage? && s.runs[a.run].id.height == h && a.entity != Events {
        assert NeedsEvents(s, a.run, h);
      }
    }
    forall r | NeedsEvents(s', r, h) ensures Slot(Events, h) in s'.staging {
      EventsStay(s, a, r, h);
    }
  }

  lemma EventsStay(s: State, a: Action, r: nat, h: nat)
    requires EventsThere(s, h) && Enabled(PROMPT, s, a) && !TakesEvents(s, a, h)
    requires NeedsEvents(Apply(PROMPT, s, a), r, h)
    ensures Slot(Events, h) in Apply(PROMPT, s, a).staging
  {
    if !(a.Stage? && a.run == r && a.entity == Events) {
      assert NeedsEvents(s, r, h);
    }
  }

  lemma {:induction false} SightedAlways(s: State, acts: seq<Action>, h: nat)
    requires SightedAt(s, h) && EventsThere(s, h) && ValidRun(PROMPT, s, acts) && EventsKept(PROMPT, s, acts, h)
    ensures SightedAt(After(PROMPT, s, acts), h)
    decreases |acts|
  {
    if acts != [] {
      SightedStep(s, acts[0], h);
      SightedAlways(Apply(PROMPT, s, acts[0]), acts[1..], h);
    }
  }

  /** Nothing at h is ever blind if no cleanup takes the events of h while they are needed. */
  lemma KeptEventsAreSeen(acts: seq<Action>, h: nat)
    requires ValidRun(PROMPT, INITIAL, acts) && EventsKept(PROMPT, INITIAL, acts, h)
    ensures SightedAt(After(PROMPT, INITIAL, acts), h)
    ensures forall e: Entity :: !WentBlind(After(PROMPT, INITIAL, acts), e, h)
  {
    SightedAlways(INITIAL, acts, h);
  }

  /** First-time executions have their events; only a reindex can lose them. */
  ghost predicate FirstRunsHaveEvents(s: State, h: nat) {
    forall r :: NeedsEvents(s, r, h) && s.runs[r].id.Index? ==> Slot(Events, h) in s.staging
  }

  lemma NeededBefore(s: State, a: Action, r: nat, h: nat)
    requires Enabled(PROMPT, s, a) && NeedsEvents(Apply(PROMPT, s, a), r, h)
    requires !(a.Stage? && a.run == r && a.entity == Events)
    ensures NeedsEvents(s, r, h) && s.runs[r].id == Apply(PROMPT, s, a).runs[r].id
  {
  }

  lemma FirstRunsStep(s: State, a: Action, h: nat)
    requires Invariant(s) && CleanupInvariant(s) && FirstRunsHaveEvents(s, h) && Enabled(PROMPT, s, a)
    ensures FirstRunsHaveEvents(Apply(PROMPT, s, a), h)
  {
    var s' := Apply(PROMPT, s, a);
    forall r | NeedsEvents(s', r, h) && s'.runs[r].id.Index? ensures Slot(Events, h) in s'.staging {
      if !(a.Stage? && a.run == r && a.entity == Events) {
        NeededBefore(s, a, r, h);
        assert Writes(s.runs[r].phase) && h !in s.log;
        assert a.Clean? ==> h !in a.heights;
      }
    }
  }

  lemma {:induction false} FirstRunsKeepEvents(s: State, acts: seq<Action>, h: nat)
    requires Invariant(s) && CleanupInvariant(s) && FirstRunsHaveEvents(s, h) && ValidRun(PROMPT, s, acts)
    ensures FirstRunsHaveEvents(After(PROMPT, s, acts), h)
    decreases |acts|
  {
    if acts != [] {
      FirstRunsStep(s, acts[0], h);
      CleanupInvariantAlways(s, acts[..1]);
      assert After(PROMPT, s, acts[..1]) == Apply(PROMPT, s, acts[0]);
      FirstRunsKeepEvents(Apply(PROMPT, s, acts[0]), acts[1..], h);
    }
  }

  /** Without a reindex no cleanup takes events that are needed. */
  lemma {:induction false} FirstRunsAreKept(s: State, acts: seq<Action>, h: nat)
    requires Invariant(s) && CleanupInvariant(s) && ValidRun(PROMPT, s, acts)
    requires NeverReindexed(After(PROMPT, s, acts), h)
    ensures NeverReindexed(s, h) && EventsKept(PROMPT, s, acts, h)
    decreases |acts|
  {
    if acts != [] {
      var s' := Apply(PROMPT, s, acts[0]);
      CleanupInvariantAlways(s, acts[..1]);
      assert After(PROMPT, s, acts[..1]) == s';
      FirstRunsAreKept(s', acts[1..], h);
      assert Enabled(WELL_BEHAVED, s, acts[0]);
      NeverReindexedBefore(s, acts[0], h);
      assert acts[0].Clean? && h in acts[0].heights ==> h in s.log;
      assert forall r :: NeedsEvents(s, r, h) ==> h !in s.log;
    }
  }

  /** At a height that was only indexed first-time nothing is ever blind. */
  lemma FirstTimeIsSighted(acts: seq<Action>, h: nat)
    requires ValidRun(PROMPT, INITIAL, acts) && NeverReindexed(After(PROMPT, INITIAL, acts), h)
    ensures forall e: Entity :: !WentBlind(After(PROMPT, INITIAL, acts), e, h)
  {
    FirstRunsAreKept(INITIAL, acts, h);
    KeptEventsAreSeen(acts, h);
  }

  /** Readers see the full history, for every order of indexing and any number of reindexes, when no cleanup took the
      events of a height while one of its runs still needed them. */
  lemma KeptEventsOrderFree<I, R>(
    acts: seq<Action>, entity: Entity, rows: nat -> map<I, R>, blind: nat -> map<I, R>, id: I, height: nat)
    requires ValidRun(PROMPT, INITIAL, acts) && rows(0) == blind(0) == map[]
    requires forall h :: 1 <= h <= height ==>
               h in After(PROMPT, INITIAL, acts).log && EventsKept(PROMPT, INITIAL, acts, h)
    ensures
      Newest(Stored(After(PROMPT, INITIAL, acts), entity, rows, blind, id), height) == Newest(Emitted(rows, id), height)
  {
    SerialIsWellBehaved(PROMPT, INITIAL, acts);
    forall h | 1 <= h <= height ensures !WentBlind(After(PROMPT, INITIAL, acts), entity, h) {
      KeptEventsAreSeen(acts, h);
    }
    OrderFree(acts, entity, rows, blind, id, height);
  }
}
