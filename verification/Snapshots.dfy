/** Snapshot-on-change storage: rows are written only at some heights, and a
    reader takes the newest row at or below the height it asks for. */
module Snapshots {
  import opened CommitProtocol
  import opened Lists

  /** The newest row at or below height, if any. */
  function Newest<R>(emit: nat -> Option<R>, height: nat): Option<R> {
    if emit(height).Some? || height == 0 then emit(height) else Newest(emit, height - 1)
  }

  /** A reader finds a row exactly if some height up to its own wrote it and none in between wrote another. */
  lemma {:induction false} NewestMeans<R>(emit: nat -> Option<R>, height: nat)
    ensures Newest(emit, height) == None <==> forall g: nat :: g <= height ==> emit(g).None?
    ensures forall g: nat :: g <= height && emit(g).Some? && (forall k: nat :: g < k <= height ==> emit(k).None?) ==>
              Newest(emit, height) == emit(g)
  {
    if height > 0 && emit(height).None? {
      NewestMeans(emit, height - 1);
    }
  }

  /** RPC data one block back; there is none before height 2. */
  function Previous<A>(history: nat -> seq<A>, height: nat): seq<A> {
    if height <= 1 then [] else history(height - 1)
  }

  /** The row indexing a height writes for one id, where rows gives what each height stages. */
  function Emitted<I, R>(rows: nat -> map<I, R>, id: I): nat -> Option<R> {
    (h: nat) => Get(rows(h), id)
  }

  /** What the deduplicating engine shows for a slot: per key the row inserted last. Sighted data are the rows of the
      height, blind data the rows computed as if it had no events. */
  function Merged<I, R>(rows: map<I, R>, blind: map<I, R>, contents: seq<Content>): map<I, R> {
    if contents == [] then map[]
    else
      var last := contents[|contents| - 1];
      Merged(rows, blind, contents[..|contents| - 1]) + if last.sighted then rows else blind
  }

  /** The row production shows for one id at a height. */
  function Stored<I, R>(s: State, entity: Entity, rows: nat -> map<I, R>, blind: nat -> map<I, R>, id: I): nat -> Option<R> {
    (h: nat) => Get(Merged(rows(h), blind(h), Contents(s.production, Slot(entity, h))), id)
  }

  /** The row shown, from the row sighted data has and the row blind data has. */
  function Shown<R>(row: Option<R>, blind: Option<R>, hasSighted: bool, hasBlind: bool, lastSighted: bool): Option<R> {
    if !hasBlind then (if hasSighted then row else None)
    else if !hasSighted then blind
    else if row.None? then blind
    else if blind.None? || lastSighted then row
    else blind
  }

  predicate LastSighted(cs: seq<Content>) {
    cs != [] && cs[|cs| - 1].sighted
  }

  /** Repeating a promotion changes nothing, and of all that was promoted only the kinds and the last one matter. */
  lemma {:induction false} MergedShows<I, R>(rows: map<I, R>, blind: map<I, R>, cs: seq<Content>, id: I)
    ensures Get(Merged(rows, blind, cs), id)
         == Shown(Get(rows, id), Get(blind, id), HasSighted(cs), HasBlind(cs), LastSighted(cs))
  {
    if cs != [] {
      var t := cs[..|cs| - 1];
      MergedShows(rows, blind, t, id);
      LastKind(cs);
    }
  }

  lemma LastKind(cs: seq<Content>)
    requires cs != []
    ensures
      var t, last := cs[..|cs| - 1], cs[|cs| - 1];
      && (HasSighted(cs) <==> HasSighted(t) || last.sighted)
      && (HasBlind(cs) <==> HasBlind(t) || !last.sighted)
      && (LastSighted(t) ==> HasSighted(t)) && (!HasSighted(t) && !HasBlind(t) ==> t == [])
  {
    var t, last := cs[..|cs| - 1], cs[|cs| - 1];
    SplitLast(cs);
    assert forall c :: c in cs <==> c in t || c == last;
    if t != [] {
      assert t[0] in t;
    }
  }

  /** Exactly when the row shown at a recorded height is that of the full history. */
  lemma ShownRight<I, R>(acts: seq<Action>, entity: Entity, rows: nat -> map<I, R>, blind: nat -> map<I, R>, id: I, h: nat)
    requires ValidRun(WELL_BEHAVED, INITIAL, acts) && h in After(WELL_BEHAVED, INITIAL, acts).log
    ensures
      var s := After(WELL_BEHAVED, INITIAL, acts);
      var row, other := Get(rows(h), id), Get(blind(h), id);
      Stored(s, entity, rows, blind, id)(h) == row
      <==> || row == other
           || !WentBlind(s, entity, h)
           || (SawEvents(s, entity, h) && row.Some?
               && (other.None? || LastSighted(Contents(s.production, Slot(entity, h)))))
  {
    StoredIs(acts, entity, rows, blind, id, h);
  }

  /** What is shown at a recorded height, in terms of the two kinds of data; some of either kind has been promoted. */
  lemma StoredIs<I, R>(acts: seq<Action>, entity: Entity, rows: nat -> map<I, R>, blind: nat -> map<I, R>, id: I, h: nat)
    requires ValidRun(WELL_BEHAVED, INITIAL, acts) && h in After(WELL_BEHAVED, INITIAL, acts).log
    ensures
      var s := After(WELL_BEHAVED, INITIAL, acts);
      && (SawEvents(s, entity, h) || WentBlind(s, entity, h))
      && Stored(s, entity, rows, blind, id)(h)
         == Shown(Get(rows(h), id), Get(blind(h), id), SawEvents(s, entity, h), WentBlind(s, entity, h),
                  LastSighted(Contents(s.production, Slot(entity, h))))
  {
    var s := After(WELL_BEHAVED, INITIAL, acts);
    CommitSafety(acts, h);
    NoEmptySlotsAlways(WELL_BEHAVED, INITIAL, acts);
    var cs := Contents(s.production, Slot(entity, h));
    assert cs[0] in cs;
    MergedShows(rows(h), blind(h), cs, id);
  }

  /** Entities that read no events show the rows of the full history at every recorded height. */
  lemma StoredIsEmitted<I, R>(acts: seq<Action>, entity: Entity, rows: nat -> map<I, R>, id: I, h: nat)
    requires ValidRun(WELL_BEHAVED, INITIAL, acts) && h in After(WELL_BEHAVED, INITIAL, acts).log
    ensures Stored(After(WELL_BEHAVED, INITIAL, acts), entity, rows, rows, id)(h) == Emitted(rows, id)(h)
  {
    StoredIs(acts, entity, rows, rows, id, h);
  }

  lemma StoredAtZero<I, R>(s: State, entity: Entity, rows: nat -> map<I, R>, blind: nat -> map<I, R>, id: I)
    requires rows(0) == blind(0) == map[]
    ensures Stored(s, entity, rows, blind, id)(0) == None
  {
    MergedShows(rows(0), blind(0), Contents(s.production, Slot(entity, 0)), id);
  }

  /** Compaction: if every written row is right when written, and stays right at each height that
      writes none, then the newest row is right at every height. */
  lemma {:induction false} Compaction<R(!new)>(emit: nat -> Option<R>, right: (Option<R>, nat) -> bool, height: nat)
    requires emit(0).None? && right(None, 0)
    requires forall h :: 1 <= h <= height && emit(h).Some? ==> right(emit(h), h)
    requires forall h, o :: 1 <= h <= height && emit(h).None? && right(o, h - 1) ==> right(o, h)
    ensures right(Newest(emit, height), height)
  {
    if height > 0 {
      Compaction(emit, right, height - 1);
    }
  }

  /** A row that is not written since some height is the newest row there. */
  lemma {:induction false} NewestKept<R>(emit: nat -> Option<R>, from: nat, height: nat)
    requires from <= height && forall h :: from < h <= height ==> emit(h).None?
    ensures Newest(emit, height) == Newest(emit, from)
  {
    if from < height {
      NewestKept(emit, from, height - 1);
    }
  }

  lemma {:induction false} NewestAgrees<R>(f: nat -> Option<R>, g: nat -> Option<R>, height: nat)
    requires forall h: nat :: h <= height ==> f(h) == g(h)
    ensures Newest(f, height) == Newest(g, height)
  {
    if height > 0 {
      NewestAgrees(f, g, height - 1);
    }
  }

  /** The last height up to this one at which p held, 0 if none. */
  function LastTime(p: nat -> bool, height: nat): nat {
    if height == 0 || p(height) then height else LastTime(p, height - 1)
  }

  lemma {:induction false} LastTimeIs(p: nat -> bool, height: nat)
    ensures
      var g := LastTime(p, height);
      g <= height && (g > 0 ==> p(g)) && forall h: nat :: g < h <= height ==> !p(h)
  {
    if height > 0 && !p(height) {
      LastTimeIs(p, height - 1);
    }
  }

  /** The newest row is the one of the last height that wrote any. */
  lemma {:induction false} NewestIsLast<R>(emit: nat -> Option<R>, writes: nat -> bool, height: nat)
    requires emit(0).None? && forall h: nat :: 1 <= h <= height ==> (emit(h).Some? <==> writes(h))
    ensures
      var g := LastTime(writes, height);
      && Newest(emit, height) == (if g == 0 then None else emit(g))
      && (g > 0 ==> emit(g).Some?)
  {
    if height > 0 {
      NewestIsLast(emit, writes, height - 1);
    }
  }

  /** Something started at some height up to this one and every later height keeps it. */
  ghost predicate Since(starts: nat -> bool, keeps: nat -> bool, height: nat) {
    starts(height) || (height > 0 && keeps(height) && Since(starts, keeps, height - 1))
  }

  ghost predicate SinceFrom(starts: nat -> bool, keeps: nat -> bool, g: nat, height: nat) {
    g <= height && starts(g) && forall h :: g < h <= height ==> keeps(h)
  }

  lemma {:induction false} SinceMeans(starts: nat -> bool, keeps: nat -> bool, height: nat)
    ensures Since(starts, keeps, height) <==> exists g: nat :: SinceFrom(starts, keeps, g, height)
  {
    if starts(height) {
      assert SinceFrom(starts, keeps, height, height);
    } else if height > 0 {
      SinceMeans(starts, keeps, height - 1);
      if Since(starts, keeps, height) {
        var g: nat :| SinceFrom(starts, keeps, g, height - 1);
        assert SinceFrom(starts, keeps, g, height);
      } else if exists g: nat :: SinceFrom(starts, keeps, g, height) {
        var g: nat :| SinceFrom(starts, keeps, g, height);
        assert SinceFrom(starts, keeps, g, height - 1);
      }
    }
  }

  /** The heights 1 to height are all in the progress log of the state a run reaches. */
  ghost predicate Indexed(acts: seq<Action>, height: nat) {
    && ValidRun(WELL_BEHAVED, INITIAL, acts)
    && forall h :: 1 <= h <= height ==> h in After(WELL_BEHAVED, INITIAL, acts).log
  }

  /** Whatever the order in which heights were indexed, retried, promoted and cleaned, once 1..height are recorded a
      reader of production sees exactly the rows of the full history, if at each height either no activity of the entity
      found the events gone or the events make no difference to its rows. */
  lemma OrderFree<I, R>(
    acts: seq<Action>, entity: Entity, rows: nat -> map<I, R>, blind: nat -> map<I, R>, id: I, height: nat)
    requires Indexed(acts, height) && rows(0) == blind(0) == map[]
    requires forall h :: 1 <= h <= height ==>
               !WentBlind(After(WELL_BEHAVED, INITIAL, acts), entity, h) || Get(rows(h), id) == Get(blind(h), id)
    ensures
      var stored := Stored(After(WELL_BEHAVED, INITIAL, acts), entity, rows, blind, id);
      Newest(stored, height) == Newest(Emitted(rows, id), height)
  {
    var s := After(WELL_BEHAVED, INITIAL, acts);
    var stored := Stored(s, entity, rows, blind, id);
    forall h: nat | h <= height ensures stored(h) == Emitted(rows, id)(h) {
      if h == 0 {
        StoredAtZero(s, entity, rows, blind, id);
      } else {
        StoredIs(acts, entity, rows, blind, id, h);
      }
    }
    NewestAgrees(stored, Emitted(rows, id), height);
  }
}
