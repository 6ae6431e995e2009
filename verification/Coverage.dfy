/** HeadScan, GapScan, the schedulers, dispatch and recording as one step system:
    which heights are recorded, being indexed, or still inside somebody's range. */
module Coverage {
  import CommitProtocol
  import opened Dispatch
  import opened Integers
  import opened Progress
  import opened Scheduler

  /** Temporal workflow ids of whatever hands out heights: the one catch-up scheduler, a scheduler
      per gap, and a HeadScan execution that schedules directly. */
  datatype TaskId = CatchUp | GapFill(gap: Gap) | Direct(scan: nat)

  datatype State = State(
    log: seq<uint64>,
    dispatched: set<uint64>,
    tasks: map<TaskId, Range>,
    headScans: map<nat, uint64>,
    gapScans: map<nat, seq<Gap>>)

  const INITIAL := State([], {}, map[], map[], map[])

  /** The configured threshold and sizes, and whether batches can get lost, starts can fail, and executions can be
      terminated. */
  datatype Environment = Environment(
    catchupThreshold: uint64, batchSize: uint64, directBatchSize: uint64, mayLose: bool, mayFail: bool, mayKill: bool)
  {
    /** Every scheduler run sends batches of this size. */
    function Limit(): (limit: uint64)
      ensures limit >= 1
    {
      LimitOr(batchSize, 1)
    }

    /** Nothing goes wrong; a batch of one height cannot be lost. */
    predicate Faultless() {
      (!mayLose || Limit() == 1) && !mayFail && !mayKill
    }

    /** Batches may be lost, but of a catch-up only ones with nothing sent above them. */
    predicate LosesOnlyTops() {
      !mayFail && !mayKill && (Limit() >= TWO63 || catchupThreshold == MAX_HEIGHT)
    }

    predicate Safe() {
      Faultless() || LosesOnlyTops()
    }
  }

  datatype Action =
    | ReadLast(scan: nat)
    | ScanHead(scan: nat, latest: uint64, sawRunning: bool)
    | ReadGaps(scan: nat)
    | StartGap(scan: nat, gap: Gap)
    | SendBatch(task: TaskId, latest: uint64, failed: set<uint64>)
    | SendChunk(scan: nat, failed: set<uint64>)
    | Record(height: uint64)
    | KillTask(task: TaskId)
    | KillIndexing(height: uint64)

  /** The chunk of a direct scan: size heights from the bottom, or what is left. */
  function ChunkEnd(r: Range, size: uint64): (end: uint64)
    requires size >= 1 && r.lo <= r.hi
    ensures r.lo <= end <= r.hi && (end == r.hi || end - r.lo + 1 == size) && end - r.lo + 1 <= size
  {
    if r.lo + size - 1 > r.hi then r.hi else r.lo + size - 1
  }

  function SentHeights(sent: seq<Sent>): set<uint64> {
    set x | x in sent :: x.height
  }

  function Span(lo: uint64, hi: uint64): set<uint64> {
    set h: uint64 | lo <= h <= hi && Range(lo, hi).Has(h)
  }

  function Renewed(tasks: map<TaskId, Range>, id: TaskId, lo: int, hi: int): map<TaskId, Range>
    requires 0 <= lo < TWO64 && hi < TWO64
  {
    if lo <= hi then tasks[id := Range(lo, hi)] else tasks - {id}
  }

  ghost predicate Enabled(env: Environment, s: State, a: Action) {
    match a
    case ReadLast(_) => true
    case ScanHead(k, latest, _) => k in s.headScans && latest < MAX_HEIGHT && Direct(k) !in s.tasks
    case ReadGaps(_) => true
    case StartGap(k, g) => k in s.gapScans && g in s.gapScans[k]
    case SendBatch(id, latest, failed) =>
      && id in s.tasks && !id.Direct? && s.tasks[id].lo <= s.tasks[id].hi
      && (!env.mayFail ==> failed == {})
      && (!env.mayLose ==> !Lost(BatchStart(s.tasks[id].lo, s.tasks[id].hi, env.Limit()), s.tasks[id].hi, latest))
    case SendChunk(k, failed) =>
      && Direct(k) in s.tasks && s.tasks[Direct(k)].lo <= s.tasks[Direct(k)].hi < MAX_HEIGHT
      && (!env.mayFail ==> failed == {})
    case Record(h) => h in s.dispatched
    case KillTask(id) => env.mayKill
    case KillIndexing(h) => env.mayKill
  }

  function Apply(env: Environment, s: State, a: Action): State
    requires Enabled(env, s, a)
  {
    match a
    case ReadLast(k) => s.(headScans := s.headScans[k := LastIndexed(s.log)])
    case ScanHead(k, latest, sawRunning) =>
      var last := s.headScans[k];
      if latest <= last then s
      else if latest - last < env.catchupThreshold then s.(tasks := s.tasks[Direct(k) := Range(last + 1, latest)])
      else if sawRunning || CatchUp in s.tasks then s
      else s.(tasks := s.tasks[CatchUp := Range(last + 1, latest)])
    case ReadGaps(k) => s.(gapScans := s.gapScans[k := FindGaps(s.log)])
    case StartGap(k, g) =>
      if GapFill(g) in s.tasks then s else s.(tasks := s.tasks[GapFill(g) := Range(g.from, g.to)])
    case SendBatch(id, latest, failed) =>
      var r := s.tasks[id];
      var lo := BatchStart(r.lo, r.hi, env.Limit());
      s.(dispatched := s.dispatched + (SentHeights(Dispatched(lo, r.hi, latest)) - failed),
         tasks := Renewed(s.tasks, id, r.lo, lo - 1))
    case SendChunk(k, failed) =>
      var r := s.tasks[Direct(k)];
      var end := ChunkEnd(r, ChunkSize(env.directBatchSize));
      s.(dispatched := s.dispatched + (Span(r.lo, end) - failed), tasks := Renewed(s.tasks, Direct(k), end + 1, r.hi))
    case Record(h) => s.(log := s.log + [h])
    case KillTask(id) => s.(tasks := s.tasks - {id})
    case KillIndexing(h) => s.(dispatched := s.dispatched - {h})
  }

  ghost predicate ValidRun(env: Environment, s: State, acts: seq<Action>)
    decreases |acts|
  {
    acts == [] || (Enabled(env, s, acts[0]) && ValidRun(env, Apply(env, s, acts[0]), acts[1..]))
  }

  ghost function After(env: Environment, s: State, acts: seq<Action>): State
    requires ValidRun(env, s, acts)
    decreases |acts|
  {
    if acts == [] then s else After(env, Apply(env, s, acts[0]), acts[1..])
  }

  // ---------------------------------------------------------------- what every step keeps

  ghost predicate InTask(tasks: map<TaskId, Range>, h: uint64) {
    exists id :: id in tasks && tasks[id].Has(h)
  }

  /** Recorded, being indexed, or inside the remaining range of a live task. */
  ghost predicate Covered(s: State, h: uint64) {
    h in s.log || h in s.dispatched || InTask(s.tasks, h)
  }

  ghost predicate Closed(s: State) {
    forall g: uint64, h: uint64 :: 1 <= g <= h && Covered(s, h) ==> Covered(s, g)
  }

  /** One chunk of a direct scan takes as many heights from the bottom as configured, 50 at least, or what is left. */
  lemma ChunkTakes(env: Environment, s: State, scan: nat, failed: set<uint64>, h: uint64)
    requires Enabled(env, s, SendChunk(scan, failed))
    ensures
      var r, s' := s.tasks[Direct(scan)], Apply(env, s, SendChunk(scan, failed));
      var size := if env.directBatchSize > 50 then env.directBatchSize else 50;
      && (h in s'.dispatched <==> h in s.dispatched || (r.lo <= h <= r.hi && h < r.lo + size && h !in failed))
      && (Direct(scan) in s'.tasks <==> r.hi >= r.lo + size)
      && (Direct(scan) in s'.tasks ==> s'.tasks[Direct(scan)] == Range(r.lo + size, r.hi))
  {
  }

  /** What scans have read is, and stays, vouched for by the append-only log. */
  ghost predicate ReadsHold(s: State) {
    && (forall k :: k in s.headScans ==> s.headScans[k] == 0 || s.headScans[k] in s.log)
    && (forall k, g :: k in s.gapScans && g in s.gapScans[k] ==>
          g.to < MAX_HEIGHT && g.from - 1 in s.log && g.to + 1 in s.log)
  }

  ghost predicate Bounded(s: State) {
    forall h: uint64 :: Covered(s, h) ==> h < MAX_HEIGHT
  }

  ghost predicate Basic(s: State) {
    ReadsHold(s) && Bounded(s)
  }

  lemma BoundedLog(s: State)
    requires Bounded(s)
    ensures multiset(s.log)[MAX_HEIGHT] == 0
  {
    assert MAX_HEIGHT in multiset(s.log) ==> MAX_HEIGHT in s.log;
    assert MAX_HEIGHT in s.log ==> Covered(s, MAX_HEIGHT);
  }

  lemma LastIsRecorded(log: seq<uint64>)
    ensures LastIndexed(log) == 0 || LastIndexed(log) in log
  {
    if log != [] {
      LastIsMax(log);
    }
  }

  lemma DispatchedHeights(lo: uint64, hi: uint64, latest: uint64, h: uint64)
    requires lo <= hi
    ensures h in SentHeights(Dispatched(lo, hi, latest)) ==> lo <= h <= hi
    ensures !Lost(lo, hi, latest) ==> (h in SentHeights(Dispatched(lo, hi, latest)) <==> lo <= h <= hi)
  {
    BatchSplitExact(lo, hi, latest, h);
    var sent := Dispatched(lo, hi, latest);
    assert h in SentHeights(sent) <==> exists i :: 0 <= i < |sent| && sent[i].height == h;
  }

  /** Replacing a task's range by a part of it. */
  lemma RenewedCovers(tasks: map<TaskId, Range>, id: TaskId, lo: int, hi: int, h: uint64)
    requires id in tasks && 0 <= lo < TWO64 && hi < TWO64 && tasks[id].lo <= lo && hi <= tasks[id].hi
    ensures InTask(Renewed(tasks, id, lo, hi), h) ==> InTask(tasks, h)
    ensures InTask(tasks, h) && !(tasks[id].Has(h) && !(lo <= h <= hi)) ==> InTask(Renewed(tasks, id, lo, hi), h)
  {
    var tasks' := Renewed(tasks, id, lo, hi);
    if InTask(tasks', h) {
      var j :| j in tasks' && tasks'[j].Has(h);
      assert j in tasks && tasks[j].Has(h);
    }
    if InTask(tasks, h) && !(tasks[id].Has(h) && !(lo <= h <= hi)) {
      var j :| j in tasks && tasks[j].Has(h);
      assert j in tasks' && tasks'[j].Has(h);
    }
  }

  lemma AddedTask(tasks: map<TaskId, Range>, id: TaskId, r: Range, h: uint64)
    requires id !in tasks
    ensures InTask(tasks[id := r], h) <==> InTask(tasks, h) || r.Has(h)
  {
    var tasks' := tasks[id := r];
    if InTask(tasks, h) {
      var j :| j in tasks && tasks[j].Has(h);
      assert j in tasks' && tasks'[j].Has(h);
    }
    if r.Has(h) {
      assert id in tasks' && tasks'[id].Has(h);
    }
  }

  /** The heights a step adds to the covered ones: the new range of a scan or a gap, and nothing otherwise. */
  ghost predicate Adds(env: Environment, s: State, a: Action, h: uint64)
    requires Enabled(env, s, a)
  {
    match a
    case ScanHead(k, latest, _) => s.headScans[k] < h <= latest
    case StartGap(_, g) => g.Has(h)
    case _ => false
  }

  lemma OneHeightIsSent(s: State, id: TaskId, latest: uint64)
    requires Bounded(s) && id in s.tasks && s.tasks[id].lo <= s.tasks[id].hi
    ensures !Lost(BatchStart(s.tasks[id].lo, s.tasks[id].hi, 1), s.tasks[id].hi, latest)
  {
    assert s.tasks[id].Has(s.tasks[id].hi);
    assert Covered(s, s.tasks[id].hi);
  }

  lemma StepCovers(env: Environment, s: State, a: Action, h: uint64)
    requires Enabled(env, s, a)
    ensures Covered(Apply(env, s, a), h) ==> Covered(s, h) || Adds(env, s, a, h)
    ensures env.Faultless() && Bounded(s) && Covered(s, h) ==> Covered(Apply(env, s, a), h)
  {
    var s' := Apply(env, s, a);
    match a
    case ScanHead(k, latest, _) =>
      if s'.tasks != s.tasks {
        var id := if latest - s.headScans[k] < env.catchupThreshold then Direct(k) else CatchUp;
        AddedTask(s.tasks, id, Range(s.headScans[k] + 1, latest), h);
      }
    case StartGap(_, g) =>
      if GapFill(g) !in s.tasks {
        AddedTask(s.tasks, GapFill(g), Range(g.from, g.to), h);
      }
    case SendBatch(id, latest, failed) =>
      var r := s.tasks[id];
      var lo: int := BatchStart(r.lo, r.hi, env.Limit());
      if env.Limit() == 1 && Bounded(s) {
        OneHeightIsSent(s, id, latest);
      }
      DispatchedHeights(lo, r.hi, latest, h);
      RenewedCovers(s.tasks, id, r.lo, lo - 1, h);
      if r.Has(h) {
        assert InTask(s.tasks, h);
      }
    case SendChunk(k, failed) =>
      var r := s.tasks[Direct(k)];
      RenewedCovers(s.tasks, Direct(k), ChunkEnd(r, ChunkSize(env.directBatchSize)) + 1, r.hi, h);
      if r.Has(h) {
        assert InTask(s.tasks, h);
      }
    case KillTask(id) =>
      if InTask(s'.tasks, h) {
        var j :| j in s'.tasks && s'.tasks[j].Has(h);
        assert j in s.tasks && s.tasks[j].Has(h);
      }
    case _ =>
  }

  lemma LogGrows(env: Environment, s: State, a: Action)
    requires Enabled(env, s, a)
    ensures forall h :: h in s.log ==> h in Apply(env, s, a).log
  {
  }

  lemma BasicStep(env: Environment, s: State, a: Action)
    requires Basic(s) && Enabled(env, s, a)
    ensures Basic(Apply(env, s, a))
  {
    var s' := Apply(env, s, a);
    forall h: uint64 | Covered(s', h) ensures h < MAX_HEIGHT {
      StepCovers(env, s, a, h);
    }
    LogGrows(env, s, a);
    LastIsRecorded(s.log);
    if a.ReadGaps? {
      BoundedLog(s);
      GapExactness(s.log);
    }
  }

  lemma ClosedStep(env: Environment, s: State, a: Action)
    requires Basic(s) && Closed(s) && Enabled(env, s, a) && env.Faultless()
    ensures Closed(Apply(env, s, a))
  {
    var s' := Apply(env, s, a);
    forall g: uint64, h: uint64 | 1 <= g <= h && Covered(s', h) ensures Covered(s', g) {
      StepCovers(env, s, a, h);
      StepCovers(env, s, a, g);
      if !Covered(s, h) {
        AddedIsClosed(env, s, a, g, h);
      }
    }
  }

  lemma AddedIsClosed(env: Environment, s: State, a: Action, g: uint64, h: uint64)
    requires Basic(s) && Closed(s) && Enabled(env, s, a) && env.Faultless()
    requires 1 <= g <= h && Adds(env, s, a, h) && Covered(Apply(env, s, a), h) && !Covered(s, h)
    ensures Covered(Apply(env, s, a), g)
  {
    StepCovers(env, s, a, g);
    match a
    case ScanHead(k, latest, _) =>
      var last := s.headScans[k];
      if g <= last {
        assert Covered(s, last);
      } else {
        var id := if latest - last < env.catchupThreshold then Direct(k) else CatchUp;
        AddedTask(s.tasks, id, Range(last + 1, latest), g);
      }
    case StartGap(_, gap) =>
      assert Covered(s, gap.to + 1);
  }

  lemma {:induction false} InvariantAlways(env: Environment, s: State, acts: seq<Action>)
    requires Basic(s) && ValidRun(env, s, acts)
    ensures Basic(After(env, s, acts))
    ensures env.Faultless() && Closed(s) ==> Closed(After(env, s, acts))
    decreases |acts|
  {
    if acts != [] {
      BasicStep(env, s, acts[0]);
      if env.Faultless() && Closed(s) {
        ClosedStep(env, s, acts[0]);
      }
      InvariantAlways(env, Apply(env, s, acts[0]), acts[1..]);
    }
  }

  // ---------------------------------------------------------------- losses that leave nothing out

  /** Covered without the help of a scheduler. */
  ghost predicate Solid(s: State, h: uint64) {
    h in s.log || h in s.dispatched || exists k :: Direct(k) in s.tasks && s.tasks[Direct(k)].Has(h)
  }

  lemma SolidIsCovered(s: State, h: uint64)
    requires Solid(s, h)
    ensures Covered(s, h)
  {
    if h !in s.log && h !in s.dispatched {
      var k :| Direct(k) in s.tasks && s.tasks[Direct(k)].Has(h);
      assert InTask(s.tasks, h);
    }
  }

  ghost predicate SolidClosed(s: State) {
    forall g: uint64, h: uint64 :: 1 <= g <= h && Solid(s, h) ==> Solid(s, g)
  }

  /** A range that starts at 1 or right above a recorded height. */
  ghost predicate Anchored(s: State, lo: uint64) {
    lo == 1 || (lo > 1 && lo - 1 in s.log)
  }

  /** A catch-up keeps its anchor, as batches are taken from the top, and a gap lies below a recorded height. */
  ghost predicate SchedulersAnchored(env: Environment, s: State) {
    && (CatchUp in s.tasks ==> env.Limit() >= TWO63 && Anchored(s, s.tasks[CatchUp].lo))
    && (forall g :: GapFill(g) in s.tasks ==>
          g.to < MAX_HEIGHT && s.tasks[GapFill(g)].hi <= g.to && g.to + 1 in s.log)
  }

  lemma AnchoredStep(env: Environment, s: State, a: Action)
    requires env.LosesOnlyTops() && Basic(s) && SchedulersAnchored(env, s) && Enabled(env, s, a)
    ensures SchedulersAnchored(env, Apply(env, s, a))
  {
    LogGrows(env, s, a);
  }

  lemma SolidStays(env: Environment, s: State, a: Action, h: uint64)
    requires !env.mayFail && !env.mayKill && Enabled(env, s, a) && Solid(s, h)
    ensures Solid(Apply(env, s, a), h)
  {
    var s' := Apply(env, s, a);
    if h !in s.log && h !in s.dispatched {
      var k :| Direct(k) in s.tasks && s.tasks[Direct(k)].Has(h);
      if a == SendChunk(k, {}) {
        var r := s.tasks[Direct(k)];
        var end := ChunkEnd(r, ChunkSize(env.directBatchSize));
        assert h in Span(r.lo, end) || s'.tasks[Direct(k)].Has(h);
      } else {
        assert s'.tasks[Direct(k)].Has(h);
      }
    }
  }

  /** The range a step makes solid, if it is not solid already. */
  function Base(s: State, a: Action): uint64
    requires (a.ScanHead? && a.scan in s.headScans && s.headScans[a.scan] < MAX_HEIGHT)
             || (a.SendBatch? && a.task in s.tasks)
  {
    if a.ScanHead? then s.headScans[a.scan] + 1 else s.tasks[a.task].lo
  }

  ghost predicate Extends(env: Environment, s: State, a: Action, h: uint64)
    requires Enabled(env, s, a)
  {
    && ((a.ScanHead? && s.headScans[a.scan] < MAX_HEIGHT) || (a.SendBatch? && a.task == CatchUp))
    && Base(s, a) <= h && Anchored(s, Base(s, a))
    && forall g: uint64 :: Base(s, a) <= g <= h ==> Solid(Apply(env, s, a), g)
  }

  lemma SolidGrows(env: Environment, s: State, a: Action, h: uint64)
    requires env.LosesOnlyTops() && Basic(s) && SolidClosed(s) && SchedulersAnchored(env, s) && Enabled(env, s, a)
    requires h >= 1 && Solid(Apply(env, s, a), h) && !Solid(s, h)
    ensures Extends(env, s, a, h)
  {
    var s' := Apply(env, s, a);
    match a
    case ScanHead(k, latest, _) =>
      assert s'.tasks[Direct(k)] == Range(s.headScans[k] + 1, latest) && s'.tasks[Direct(k)].Has(h);
      assert forall g: uint64 :: s.headScans[k] < g <= h ==> s'.tasks[Direct(k)].Has(g);
    case SendBatch(id, latest, failed) =>
      var r := s.tasks[id];
      SentIsSolid(env, s, a, h);
      if id.GapFill? {
        assert Solid(s, id.gap.to + 1);
      } else {
        forall g: uint64 | r.lo <= g <= h ensures Solid(s', g) {
          DispatchedHeights(r.lo, r.hi, latest, g);
        }
      }
    case _ =>
  }

  /** What a batch makes solid lies in its scheduler's range; a catch-up that is not lost goes out as a whole. */
  lemma SentIsSolid(env: Environment, s: State, a: Action, h: uint64)
    requires env.LosesOnlyTops() && SchedulersAnchored(env, s) && Enabled(env, s, a) && a.SendBatch?
    requires Solid(Apply(env, s, a), h) && !Solid(s, h)
    ensures s.tasks[a.task].Has(h)
    ensures a.task == CatchUp ==>
              && BatchStart(s.tasks[CatchUp].lo, s.tasks[CatchUp].hi, env.Limit()) == s.tasks[CatchUp].lo
              && !Lost(s.tasks[CatchUp].lo, s.tasks[CatchUp].hi, a.latest)
  {
    var r := s.tasks[a.task];
    var lo: uint64 := BatchStart(r.lo, r.hi, env.Limit());
    var s' := Apply(env, s, a);
    assert forall k :: Direct(k) in s'.tasks ==> Direct(k) in s.tasks && s'.tasks[Direct(k)] == s.tasks[Direct(k)];
    assert h in SentHeights(Dispatched(lo, r.hi, a.latest));
    DispatchedHeights(lo, r.hi, a.latest, h);
  }

  lemma SolidClosedStep(env: Environment, s: State, a: Action)
    requires env.LosesOnlyTops() && Basic(s) && SolidClosed(s) && SchedulersAnchored(env, s) && Enabled(env, s, a)
    ensures SolidClosed(Apply(env, s, a))
  {
    var s' := Apply(env, s, a);
    forall g: uint64, h: uint64 | 1 <= g <= h && Solid(s', h) ensures Solid(s', g) {
      if Solid(s, g) {
        SolidStays(env, s, a, g);
      } else {
        SolidGrows(env, s, a, h);
        if g < Base(s, a) {
          assert Solid(s, Base(s, a) - 1);
        }
      }
    }
  }

  lemma {:induction false} SolidAlways(env: Environment, s: State, acts: seq<Action>)
    requires env.LosesOnlyTops() && Basic(s) && SolidClosed(s) && SchedulersAnchored(env, s) && ValidRun(env, s, acts)
    ensures SolidClosed(After(env, s, acts))
    decreases |acts|
  {
    if acts != [] {
      BasicStep(env, s, acts[0]);
      SolidClosedStep(env, s, acts[0]);
      AnchoredStep(env, s, acts[0]);
      SolidAlways(env, Apply(env, s, acts[0]), acts[1..]);
    }
  }

  // ---------------------------------------------------------------- main results

  /** In a safe environment everything below a recorded height is covered, at every reachable state. */
  lemma BelowRecorded(env: Environment, acts: seq<Action>, g: uint64, h: uint64)
    requires env.Safe() && ValidRun(env, INITIAL, acts)
    requires 1 <= g <= h && h in After(env, INITIAL, acts).log
    ensures Covered(After(env, INITIAL, acts), g)
  {
    InvariantAlways(env, INITIAL, acts);
    if env.Faultless() {
      assert Covered(After(env, INITIAL, acts), h);
    } else {
      SolidAlways(env, INITIAL, acts);
      var s := After(env, INITIAL, acts);
      assert Solid(s, h) && Solid(s, g);
      SolidIsCovered(s, g);
    }
  }

  /** In a safe environment each height from 1 to the largest recorded one is, at every reachable state, recorded, being
      indexed, or still in a live task's range. */
  lemma CoverageAlways(env: Environment, acts: seq<Action>, h: uint64)
    requires env.Safe() && ValidRun(env, INITIAL, acts)
    ensures 1 <= h <= LastIndexed(After(env, INITIAL, acts).log) ==> Covered(After(env, INITIAL, acts), h)
  {
    var s := After(env, INITIAL, acts);
    LastIsRecorded(s.log);
    if 1 <= h <= LastIndexed(s.log) {
      BelowRecorded(env, acts, h, LastIndexed(s.log));
    }
  }

  ghost predicate Quiescent(s: State) {
    s.tasks == map[] && forall h :: h in s.dispatched ==> h in s.log
  }

  /** When all that work has finished, 1..max is recorded without a gap. */
  lemma QuiescentHasNoGaps(env: Environment, acts: seq<Action>)
    requires env.Safe() && ValidRun(env, INITIAL, acts)
    requires Quiescent(After(env, INITIAL, acts))
    ensures
      var log := After(env, INITIAL, acts).log;
      (forall h: uint64 :: 1 <= h <= LastIndexed(log) ==> h in log) && FindGaps(log) == []
  {
    InvariantAlways(env, INITIAL, acts);
    var log := After(env, INITIAL, acts).log;
    forall h: uint64 | 1 <= h <= LastIndexed(log) ensures h in log {
      CoverageAlways(env, acts, h);
    }
    BoundedLog(After(env, INITIAL, acts));
    GapExactness(log);
    if FindGaps(log) != [] {
      var g := FindGaps(log)[0];
      assert g in FindGaps(log);
      assert g.Has(g.from);
      assert InGaps(FindGaps(log), g.from);
      LastIsMax(log);
    }
  }

  /** A scan takes nothing away, whatever the environment. */
  lemma ScanKeeps(env: Environment, s: State, a: Action, h: uint64)
    requires Enabled(env, s, a) && a.ScanHead? && Covered(s, h)
    ensures Covered(Apply(env, s, a), h)
  {
    if Apply(env, s, a).tasks != s.tasks {
      var id := if a.latest - s.headScans[a.scan] < env.catchupThreshold then Direct(a.scan) else CatchUp;
      AddedTask(s.tasks, id, Range(s.headScans[a.scan] + 1, a.latest), h);
    }
  }

  /** A HeadScan that acts on its range covers everything up to the head it saw. */
  lemma HeadScanCovers(env: Environment, acts: seq<Action>, scan: nat, latest: uint64, h: uint64)
    requires env.Safe() && ValidRun(env, INITIAL, acts)
    requires Enabled(env, After(env, INITIAL, acts), ScanHead(scan, latest, false))
    requires CatchUp !in After(env, INITIAL, acts).tasks
    ensures 1 <= h <= latest ==> Covered(Apply(env, After(env, INITIAL, acts), ScanHead(scan, latest, false)), h)
  {
    InvariantAlways(env, INITIAL, acts);
    var s := After(env, INITIAL, acts);
    var a := ScanHead(scan, latest, false);
    var last := s.headScans[scan];
    if 1 <= h <= last {
      BelowRecorded(env, acts, h, last);
      ScanKeeps(env, s, a, h);
    } else if last < h <= latest {
      var id := if latest - last < env.catchupThreshold then Direct(scan) else CatchUp;
      AddedTask(s.tasks, id, Range(last + 1, latest), h);
    }
  }

  // ---------------------------------------------------------------- what a gap scan repairs, and what it is needed for

  function StartAll(scan: nat, gaps: seq<Gap>): seq<Action> {
    if gaps == [] then [] else [StartGap(scan, gaps[0])] + StartAll(scan, gaps[1..])
  }

  /** Each gap without a scheduler gets one, and running schedulers stay as they are, whatever they have left. */
  lemma {:induction false} StartAllStarts(env: Environment, s: State, scan: nat, gaps: seq<Gap>)
    requires scan in s.gapScans && (forall g :: g in gaps ==> g in s.gapScans[scan])
    ensures ValidRun(env, s, StartAll(scan, gaps))
    ensures
      var t := After(env, s, StartAll(scan, gaps));
      && t.log == s.log && t.dispatched == s.dispatched
      && (forall id :: id in t.tasks <==> id in s.tasks || (id.GapFill? && id.gap in gaps))
      && (forall id :: id in t.tasks ==>
            t.tasks[id] == if id in s.tasks then s.tasks[id] else Range(id.gap.from, id.gap.to))
    decreases |gaps|
  {
    if gaps != [] {
      var a := StartGap(scan, gaps[0]);
      assert gaps[0] in gaps;
      assert forall g :: g in gaps[1..] ==> g in gaps;
      StartAllStarts(env, Apply(env, s, a), scan, gaps[1..]);
      assert StartAll(scan, gaps)[1..] == StartAll(scan, gaps[1..]);
      assert forall g :: g in gaps ==> g == gaps[0] || g in gaps[1..];
    }
  }

  ghost predicate InGapFill(s: State, h: uint64) {
    exists g :: GapFill(g) in s.tasks && s.tasks[GapFill(g)].Has(h)
  }

  /** The height is in one of the gaps, and no scheduler of that gap is running. */
  ghost predicate Startable(s: State, gaps: seq<Gap>, h: uint64) {
    exists g :: g in gaps && g.Has(h) && GapFill(g) !in s.tasks
  }

  lemma StartedGaps(s: State, t: State, gaps: seq<Gap>, h: uint64)
    requires t.log == s.log && t.dispatched == s.dispatched
    requires forall id :: id in t.tasks <==> id in s.tasks || (id.GapFill? && id.gap in gaps)
    requires forall id :: id in t.tasks ==>
               t.tasks[id] == if id in s.tasks then s.tasks[id] else Range(id.gap.from, id.gap.to)
    ensures InGapFill(t, h) <==> InGapFill(s, h) || Startable(s, gaps, h)
    ensures Covered(t, h) <==> Covered(s, h) || Startable(s, gaps, h)
  {
    if InTask(s.tasks, h) {
      var id :| id in s.tasks && s.tasks[id].Has(h);
      assert id in t.tasks && t.tasks[id].Has(h);
    }
    if InTask(t.tasks, h) && !InTask(s.tasks, h) {
      var id :| id in t.tasks && t.tasks[id].Has(h);
      assert id !in s.tasks && id.gap in gaps && id.gap.Has(h) && GapFill(id.gap) == id;
    }
    if Startable(s, gaps, h) {
      var g :| g in gaps && g.Has(h) && GapFill(g) !in s.tasks;
      assert t.tasks[GapFill(g)].Has(h);
    }
    if InGapFill(s, h) {
      var g :| GapFill(g) in s.tasks && s.tasks[GapFill(g)].Has(h);
      assert t.tasks[GapFill(g)].Has(h);
    }
    if InGapFill(t, h) && !InGapFill(s, h) {
      var g :| GapFill(g) in t.tasks && t.tasks[GapFill(g)].Has(h);
      assert GapFill(g) !in s.tasks && g in gaps && g.Has(h);
    }
  }

  /** What a full gap scan repairs, in every environment: an unrecorded height between recorded ones is in a live gap
      scheduler afterwards if and only if it was before or no scheduler of its gap was running. */
  lemma GapScanHeals(env: Environment, acts: seq<Action>, scan: nat, h: uint64)
    requires ValidRun(env, INITIAL, acts)
    ensures
      var s := After(env, INITIAL, acts);
      var gaps := FindGaps(s.log);
      var round := [ReadGaps(scan)] + StartAll(scan, gaps);
      && ValidRun(env, s, round)
      && After(env, s, round).log == s.log
      && (Between(s.log, h) && h !in s.log ==>
            && InGaps(gaps, h)
            && (InGapFill(After(env, s, round), h) <==> InGapFill(s, h) || Startable(s, gaps, h))
            && (Covered(After(env, s, round), h) <==> Covered(s, h) || Startable(s, gaps, h)))
  {
    InvariantAlways(env, INITIAL, acts);
    var s := After(env, INITIAL, acts);
    var gaps := FindGaps(s.log);
    var s' := Apply(env, s, ReadGaps(scan));
    StartAllStarts(env, s', scan, gaps);
    var round := [ReadGaps(scan)] + StartAll(scan, gaps);
    assert round[1..] == StartAll(scan, gaps);
    BoundedLog(s);
    GapExactness(s.log);
    StartedGaps(s, After(env, s, round), gaps, h);
  }

  /** A run that leaves a height below the largest recorded one to nobody. */
  ghost predicate LeavesOut(env: Environment, acts: seq<Action>, h: uint64) {
    && ValidRun(env, INITIAL, acts)
    && 1 <= h <= LastIndexed(After(env, INITIAL, acts).log)
    && !Covered(After(env, INITIAL, acts), h)
  }

  /** A chain where nothing fails and nothing is killed: ten heights are handed to the catch-up scheduler in
      batches of four, and the head moves to 206 before the batch 3..6 goes out. */
  const LOSING_RUN: seq<Action> := [
    ReadLast(0), ScanHead(0, 10, false),
    SendBatch(CatchUp, 10, {}), SendBatch(CatchUp, 206, {}), SendBatch(CatchUp, 206, {}),
    Record(10)]

  const LOSSY := Environment(1, 4, 0, true, false, false)

  ghost predicate RunsTo(env: Environment, s: State, acts: seq<Action>, t: State) {
    ValidRun(env, s, acts) && After(env, s, acts) == t
  }

  lemma RunsOne(env: Environment, s: State, acts: seq<Action>, t: State)
    requires acts != [] && Enabled(env, s, acts[0]) && RunsTo(env, Apply(env, s, acts[0]), acts[1..], t)
    ensures RunsTo(env, s, acts, t)
  {
  }

  /** The three sends of the run: the middle one reaches nobody. */
  lemma BatchThatIsLost()
    ensures BatchStart(1, 10, 4) == 7 && BatchStart(1, 6, 4) == 3 && BatchStart(1, 2, 4) == 1
    ensures Dispatched(3, 6, 206) == []
    ensures 10 in SentHeights(Dispatched(7, 10, 10))
    ensures 5 !in SentHeights(Dispatched(7, 10, 10)) && 5 !in SentHeights(Dispatched(1, 2, 206))
  {
    DispatchedHeights(7, 10, 10, 10);
    DispatchedHeights(7, 10, 10, 5);
    DispatchedHeights(1, 2, 206, 5);
  }

  /** The states of the losing run between its sends. */
  function Losing(log: seq<uint64>, sent: set<uint64>, tasks: map<TaskId, Range>): State {
    State(log, sent, tasks, map[0 := 0], map[])
  }

  lemma LosingTail(sent: set<uint64>, final: State)
    requires 10 in sent && final == Losing([10], sent + SentHeights(Dispatched(1, 2, 206)), map[])
    ensures RunsTo(LOSSY, Losing([], sent, map[CatchUp := Range(1, 6)]), LOSING_RUN[3..], final)
  {
    BatchThatIsLost();
    var s3 := Losing([], sent, map[CatchUp := Range(1, 6)]);
    var s4 := Losing([], sent, map[CatchUp := Range(1, 2)]);
    var s5 := Losing([], final.dispatched, map[]);
    assert Apply(LOSSY, s3, LOSING_RUN[3]) == s4;
    assert Apply(LOSSY, s4, LOSING_RUN[4]) == s5;
    assert Apply(LOSSY, s5, LOSING_RUN[5]) == final;
    RunsOne(LOSSY, s5, LOSING_RUN[5..], final);
    RunsOne(LOSSY, s4, LOSING_RUN[4..], final);
    RunsOne(LOSSY, s3, LOSING_RUN[3..], final);
  }

  lemma LosingRunEnds()
    ensures RunsTo(LOSSY, INITIAL, LOSING_RUN,
                   Losing([10], SentHeights(Dispatched(7, 10, 10)) + SentHeights(Dispatched(1, 2, 206)), map[]))
  {
    BatchThatIsLost();
    var sent := SentHeights(Dispatched(7, 10, 10));
    var final := Losing([10], sent + SentHeights(Dispatched(1, 2, 206)), map[]);
    LosingTail(sent, final);
    LosingHead(sent);
    RunsConcat(LOSSY, INITIAL, LOSING_RUN[..3], Losing([], sent, map[CatchUp := Range(1, 6)]), LOSING_RUN[3..], final);
    assert LOSING_RUN == LOSING_RUN[..3] + LOSING_RUN[3..];
  }

  lemma LosingHead(sent: set<uint64>)
    requires sent == SentHeights(Dispatched(7, 10, 10))
    ensures RunsTo(LOSSY, INITIAL, LOSING_RUN[..3], Losing([], sent, map[CatchUp := Range(1, 6)]))
  {
    var head := [ReadLast(0), ScanHead(0, 10, false), SendBatch(CatchUp, 10, {})];
    var s1, s2 := Losing([], {}, map[]), Losing([], {}, map[CatchUp := Range(1, 10)]);
    var s3 := Losing([], sent, map[CatchUp := Range(1, 6)]);
    assert LOSING_RUN[..3] == head;
    assert Apply(LOSSY, INITIAL, head[0]) == s1;
    assert Apply(LOSSY, s1, head[1]) == s2;
    assert Apply(LOSSY, s2, head[2]) == s3;
    RunsOne(LOSSY, s2, head[2..], s3);
    RunsOne(LOSSY, s1, head[1..], s3);
    RunsOne(LOSSY, INITIAL, head, s3);
  }

  /** The boundary loss alone breaks coverage: 10 is recorded, and 5 is neither recorded, nor being indexed,
      nor in anybody's range. */
  lemma LossBreaksCoverage()
    ensures LeavesOut(LOSSY, LOSING_RUN, 5)
  {
    BatchThatIsLost();
    LosingRunEnds();
    assert LastIndexed([10]) == 10;
  }

  lemma {:induction false} RunsConcat(env: Environment, s: State, a: seq<Action>, t: State, b: seq<Action>, u: State)
    requires RunsTo(env, s, a, t) && RunsTo(env, t, b, u)
    ensures RunsTo(env, s, a + b, u)
    decreases |a|
  {
    if a == [] {
      assert a + b == b;
    } else {
      RunsConcat(env, Apply(env, s, a[0]), a[1..], t, b, u);
      assert (a + b)[1..] == a[1..] + b;
    }
  }

  /** What may follow: 2 is recorded, a gap scan starts the scheduler of 3..9, and at head 209 its first batch is lost. */
  const UNHEALED_RUN: seq<Action> := LOSING_RUN + LOST_AGAIN

  const LOST_AGAIN: seq<Action> := [Record(2), ReadGaps(0)] + LOSING_FILL

  const LOSING_FILL: seq<Action> := [StartGap(0, Gap(3, 9)), SendBatch(GapFill(Gap(3, 9)), 209, {})]

  lemma TwoGaps()
    ensures FindGaps([10, 2]) == [Gap(3, 9)]
  {
    assert [10, 2][..1] == [10] && [10][..0] == [];
    assert Ordered([10]) == [10];
    assert Ordered([10, 2]) == [2, 10];
    assert [2, 10][..1] == [2];
  }

  /** The states between: 2 and 10 are recorded, and a scheduler is at work on the gap. */
  function Filling(sent: set<uint64>, tasks: map<TaskId, Range>): State {
    State([10, 2], sent, tasks, map[0 := 0], map[0 := [Gap(3, 9)]])
  }

  lemma FillingLoses(sent: set<uint64>)
    ensures RunsTo(LOSSY, Filling(sent, map[]), LOSING_FILL, Filling(sent, map[GapFill(Gap(3, 9)) := Range(3, 5)]))
  {
    var id := GapFill(Gap(3, 9));
    var s2, s3, s4 := Filling(sent, map[]), Filling(sent, map[id := Range(3, 9)]), Filling(sent, map[id := Range(3, 5)]);
    assert BatchStart(3, 9, 4) == 6 && Dispatched(6, 9, 209) == [];
    assert Gap(3, 9) in [Gap(3, 9)];
    assert Apply(LOSSY, s2, LOSING_FILL[0]) == s3;
    assert Apply(LOSSY, s3, LOSING_FILL[1]) == s4;
    RunsOne(LOSSY, s3, LOSING_FILL[1..], s4);
    RunsOne(LOSSY, s2, LOSING_FILL, s4);
  }

  lemma GapIsRead(sent: set<uint64>)
    ensures Apply(LOSSY, Losing([10, 2], sent, map[]), ReadGaps(0)) == Filling(sent, map[])
  {
    TwoGaps();
  }

  lemma LostAgain(sent: set<uint64>)
    requires 2 in sent
    ensures RunsTo(LOSSY, Losing([10], sent, map[]), LOST_AGAIN, Filling(sent, map[GapFill(Gap(3, 9)) := Range(3, 5)]))
  {
    FillingLoses(sent);
    GapIsRead(sent);
    var final := Filling(sent, map[GapFill(Gap(3, 9)) := Range(3, 5)]);
    var s0, s1 := Losing([10], sent, map[]), Losing([10, 2], sent, map[]);
    var start := [Record(2), ReadGaps(0)];
    assert Apply(LOSSY, s0, Record(2)) == s1;
    RunsOne(LOSSY, s1, start[1..], Filling(sent, map[]));
    RunsOne(LOSSY, s0, start, Filling(sent, map[]));
    RunsConcat(LOSSY, s0, start, Filling(sent, map[]), LOSING_FILL, final);
  }

  lemma UnhealedRunEnds()
    ensures RunsTo(LOSSY, INITIAL, UNHEALED_RUN,
                   Filling(SentHeights(Dispatched(7, 10, 10)) + SentHeights(Dispatched(1, 2, 206)),
                           map[GapFill(Gap(3, 9)) := Range(3, 5)]))
  {
    DispatchedHeights(1, 2, 206, 2);
    var sent := SentHeights(Dispatched(7, 10, 10)) + SentHeights(Dispatched(1, 2, 206));
    LosingRunEnds();
    LostAgain(sent);
    RunsConcat(LOSSY, INITIAL, LOSING_RUN, Losing([10], sent, map[]), LOST_AGAIN,
               Filling(sent, map[GapFill(Gap(3, 9)) := Range(3, 5)]));
  }

  lemma SixIsBetween()
    ensures Between([10, 2], 6) && 6 !in [10, 2]
  {
    assert [10, 2][0] == 10 && [10, 2][1] == 2;
    assert 10 in [10, 2] && 2 in [10, 2];
  }

  lemma SixIsNowhere(sent: set<uint64>)
    requires 6 !in sent
    ensures
      var s := Filling(sent, map[GapFill(Gap(3, 9)) := Range(3, 5)]);
      !Covered(s, 6) && !Startable(s, FindGaps(s.log), 6)
  {
    SixIsBetween();
    TwoGaps();
    assert forall g :: g in [Gap(3, 9)] <==> g == Gap(3, 9);
  }

  /** A gap scan does not repair what the running scheduler of the same gap has lost: 6 lies between the recorded
      heights 2 and 10, and after a full scan it is still neither being indexed nor in anybody's range. */
  lemma RunningSchedulerHidesLoss(scan: nat)
    ensures ValidRun(LOSSY, INITIAL, UNHEALED_RUN)
    ensures
      var s := After(LOSSY, INITIAL, UNHEALED_RUN);
      var round := [ReadGaps(scan)] + StartAll(scan, FindGaps(s.log));
      && Between(s.log, 6) && ValidRun(LOSSY, s, round) && !Covered(After(LOSSY, s, round), 6)
  {
    UnhealedRunEnds();
    DispatchedHeights(7, 10, 10, 6);
    DispatchedHeights(1, 2, 206, 6);
    SixIsBetween();
    SixIsNowhere(SentHeights(Dispatched(7, 10, 10)) + SentHeights(Dispatched(1, 2, 206)));
    GapScanHeals(LOSSY, UNHEALED_RUN, scan, 6);
  }

  // ---------------------------------------------------------------- every assumption is needed

  lemma SentTwo()
    ensures SentHeights(Dispatched(1, 2, 2)) == {1, 2} && SentHeights(Dispatched(2, 2, 2)) == {2}
    ensures SentHeights(Dispatched(1, 1, 2)) == {1} && Span(1, 2) == {1, 2}
  {
    assert Dispatched(1, 2, 2)[0].height == 1 && Dispatched(1, 2, 2)[1].height == 2;
    assert Dispatched(2, 2, 2)[0].height == 2 && Dispatched(1, 1, 2)[0].height == 1;
  }

  /** The first two heights are sent, directly or by the scheduler in one or two batches, and some of the starts fail. */
  function SendTwo(env: Environment, failed: set<uint64>): seq<Action> {
    [ReadLast(0), ScanHead(0, 2, false)] + SendTwoFrom(env, failed)
  }

  function SendTwoFrom(env: Environment, failed: set<uint64>): seq<Action> {
    if env.catchupThreshold > 2 then [SendChunk(0, failed)]
    else if env.Limit() >= 2 then [SendBatch(CatchUp, 2, failed)]
    else [SendBatch(CatchUp, 2, failed), SendBatch(CatchUp, 2, failed)]
  }

  lemma SendTwoRuns(env: Environment, failed: set<uint64>)
    requires env.mayFail || failed == {}
    ensures RunsTo(env, INITIAL, SendTwo(env, failed), Losing([], {1, 2} - failed, map[]))
  {
    var final := Losing([], {1, 2} - failed, map[]);
    var acts := SendTwo(env, failed);
    var s1 := Losing([], {}, map[]);
    var s2 := Losing([], {}, map[if env.catchupThreshold > 2 then Direct(0) else CatchUp := Range(1, 2)]);
    SendTwoFromRuns(env, failed);
    assert Apply(env, INITIAL, acts[0]) == s1;
    assert Apply(env, s1, acts[1]) == s2;
    assert acts[1..][1..] == SendTwoFrom(env, failed);
    RunsOne(env, s1, acts[1..], final);
    RunsOne(env, INITIAL, acts, final);
  }

  lemma SendTwoFromRuns(env: Environment, failed: set<uint64>)
    requires env.mayFail || failed == {}
    ensures RunsTo(env, Losing([], {}, map[if env.catchupThreshold > 2 then Direct(0) else CatchUp := Range(1, 2)]),
                   SendTwoFrom(env, failed), Losing([], {1, 2} - failed, map[]))
  {
    SentTwo();
    var final := Losing([], {1, 2} - failed, map[]);
    var acts := SendTwoFrom(env, failed);
    var s2 := Losing([], {}, map[if env.catchupThreshold > 2 then Direct(0) else CatchUp := Range(1, 2)]);
    if env.catchupThreshold > 2 || env.Limit() >= 2 {
      assert Apply(env, s2, acts[0]) == final;
      RunsOne(env, s2, acts, final);
    } else {
      var s3 := Losing([], {2} - failed, map[CatchUp := Range(1, 1)]);
      assert Apply(env, s2, acts[0]) == s3;
      assert {2} - failed + ({1} - failed) == {1, 2} - failed;
      assert Apply(env, s3, acts[1]) == final;
      RunsOne(env, s3, acts[1..], final);
      RunsOne(env, s2, acts, final);
    }
  }

  /** One failed start is enough, in every environment that has them. */
  lemma FailureLeavesOut(env: Environment)
    requires env.mayFail
    ensures LeavesOut(env, SendTwo(env, {1}) + [Record(2)], 1)
  {
    SendTwoRuns(env, {1});
    var s, t := Losing([], {1, 2} - {1}, map[]), Losing([2], {2}, map[]);
    assert {1, 2} - {1} == {2};
    RunsOne(env, s, [Record(2)], t);
    RunsConcat(env, INITIAL, SendTwo(env, {1}), s, [Record(2)], t);
    assert LastIndexed([2]) == 2;
  }

  /** So is one termination. */
  lemma TerminationLeavesOut(env: Environment)
    requires env.mayKill
    ensures LeavesOut(env, SendTwo(env, {}) + [KillIndexing(1), Record(2)], 1)
  {
    SendTwoRuns(env, {});
    var s, t, u := Losing([], {1, 2} - {}, map[]), Losing([], {2}, map[]), Losing([2], {2}, map[]);
    var tail := [KillIndexing(1), Record(2)];
    assert Apply(env, s, tail[0]) == t;
    RunsOne(env, t, tail[1..], u);
    RunsOne(env, s, tail, u);
    RunsConcat(env, INITIAL, SendTwo(env, {}), s, tail, u);
    assert LastIndexed([2]) == 2;
  }

  // A lost batch is enough too, unless it cannot be lost or nothing can have been sent above it.

  /** A head that the catch-up scheduler needs more than one batch for. */
  function Top(env: Environment): uint64
    requires env.Limit() < TWO63
  {
    if env.catchupThreshold > env.Limit() + 2 then env.catchupThreshold else env.Limit() + 2
  }

  /** The scheduler's next batch, unless it is lost. */
  lemma SendsOne(env: Environment, log: seq<uint64>, sent: set<uint64>, hi: uint64, latest: uint64)
    returns (sent': set<uint64>)
    requires 2 <= env.Limit() < TWO63 && env.Limit() + 2 <= hi < MAX_HEIGHT
    requires !Lost(hi - env.Limit() + 1, hi, latest)
    ensures RunsTo(env, Losing(log, sent, map[CatchUp := Range(1, hi)]), [SendBatch(CatchUp, latest, {})],
                   Losing(log, sent', map[CatchUp := Range(1, hi - env.Limit())]))
    ensures sent <= sent' && hi in sent' && forall h :: h in sent' ==> h in sent || h > hi - env.Limit()
  {
    var s := Losing(log, sent, map[CatchUp := Range(1, hi)]);
    var lo: uint64 := hi - env.Limit() + 1;
    assert BatchStart(1, hi, env.Limit()) == lo;
    var news := SentHeights(Dispatched(lo, hi, latest));
    sent' := sent + news;
    forall h: uint64 ensures h in news <==> lo <= h <= hi {
      DispatchedHeights(lo, hi, latest, h);
    }
    var t := Losing(log, sent', map[CatchUp := Range(1, hi - env.Limit())]);
    assert news - {} == news;
    assert Apply(env, s, SendBatch(CatchUp, latest, {})) == t;
    RunsOne(env, s, [SendBatch(CatchUp, latest, {})], t);
  }

  /** Batches go out while the head is unknown, until what is left is at most one height more than a batch. */
  lemma {:induction false} SendsDown(env: Environment, log: seq<uint64>, sent: set<uint64>, hi: uint64)
    returns (acts: seq<Action>, sent': set<uint64>, hi': uint64)
    requires 2 <= env.Limit() < TWO63 && 2 <= hi < MAX_HEIGHT && forall h :: h in sent ==> h > hi
    ensures RunsTo(env, Losing(log, sent, map[CatchUp := Range(1, hi)]), acts,
                   Losing(log, sent', map[CatchUp := Range(1, hi')]))
    ensures 2 <= hi' <= hi && hi' <= env.Limit() + 1 && forall h :: h in sent' ==> h > hi'
    decreases hi
  {
    if hi <= env.Limit() + 1 {
      return [], sent, hi;
    }
    var next := SendsOne(env, log, sent, hi, 0);
    var first := [SendBatch(CatchUp, 0, {})];
    acts, sent', hi' := SendsDown(env, log, next, hi - env.Limit());
    RunsConcat(env, Losing(log, sent, map[CatchUp := Range(1, hi)]), first,
               Losing(log, next, map[CatchUp := Range(1, hi - env.Limit())]), acts,
               Losing(log, sent', map[CatchUp := Range(1, hi')]));
    acts := first + acts;
  }

  /** The next batch ends on the live boundary and is lost. */
  lemma LosesOne(env: Environment, log: seq<uint64>, sent: set<uint64>, hi: uint64) returns (t: State)
    requires env.mayLose && 2 <= env.Limit() < TWO63 && 2 <= hi <= env.Limit() + 1 && hi !in log && hi !in sent
    ensures RunsTo(env, Losing(log, sent, map[CatchUp := Range(1, hi)]), [SendBatch(CatchUp, hi + 200, {})], t)
    ensures t.log == log && !Covered(t, hi)
  {
    var s, a := Losing(log, sent, map[CatchUp := Range(1, hi)]), SendBatch(CatchUp, hi + 200, {});
    t := Apply(env, s, a);
    assert Dispatched(BatchStart(1, hi, env.Limit()), hi, hi + 200) == [];
    assert t.dispatched == sent;
    RunsOne(env, s, [a], t);
  }

  /** The catch-up scheduler has sent the topmost batch, and its end is recorded. */
  lemma TopIsRecorded(env: Environment) returns (acts: seq<Action>, sent: set<uint64>)
    requires 2 <= env.Limit() < TWO63 && env.catchupThreshold < MAX_HEIGHT
    ensures
      var top, hi := Top(env), Top(env) - env.Limit();
      && RunsTo(env, INITIAL, acts, Losing([top], sent, map[CatchUp := Range(1, hi)]))
      && forall h :: h in sent ==> h > hi
  {
    var top := Top(env);
    var s1, s2 := Losing([], {}, map[]), Losing([], {}, map[CatchUp := Range(1, top)]);
    sent := SendsOne(env, [], {}, top, top);
    var s3 := Losing([], sent, map[CatchUp := Range(1, top - env.Limit())]);
    var s4 := Losing([top], sent, map[CatchUp := Range(1, top - env.Limit())]);
    var start := [ReadLast(0), ScanHead(0, top, false)];
    var send := [SendBatch(CatchUp, top, {})];
    assert Apply(env, INITIAL, start[0]) == s1;
    assert Apply(env, s1, start[1]) == s2;
    RunsOne(env, s1, start[1..], s2);
    RunsOne(env, INITIAL, start, s2);
    RunsConcat(env, INITIAL, start, s2, send, s3);
    assert Apply(env, s3, Record(top)) == s4;
    RunsOne(env, s3, [Record(top)], s4);
    RunsConcat(env, INITIAL, start + send, s3, [Record(top)], s4);
    acts := start + send + [Record(top)];
  }

  lemma LossLeavesOut(env: Environment) returns (acts: seq<Action>, h: uint64)
    requires env.mayLose && 2 <= env.Limit() < TWO63 && env.catchupThreshold < MAX_HEIGHT
    ensures LeavesOut(env, acts, h)
  {
    var top, log := Top(env), [Top(env)];
    var first, sent := TopIsRecorded(env);
    var s := Losing(log, sent, map[CatchUp := Range(1, top - env.Limit())]);
    var more, sent', hi := SendsDown(env, log, sent, top - env.Limit());
    var t := Losing(log, sent', map[CatchUp := Range(1, hi)]);
    var u := LosesOne(env, log, sent', hi);
    RunsConcat(env, INITIAL, first, s, more, t);
    RunsConcat(env, INITIAL, first + more, t, [SendBatch(CatchUp, hi + 200, {})], u);
    acts, h := first + more + [SendBatch(CatchUp, hi + 200, {})], hi;
    assert log[..0] == [] && LastIndexed(log) == top;
  }

  /** In every environment, coverage holds over all runs if and only if nothing is terminated, no start fails, and no
      batch can be lost below one that was sent: losses are ruled out, or batches are single heights, or so long that
      a catch-up only ever sends its last one, or the threshold keeps the catch-up from starting. */
  lemma CoverageExactly(env: Environment)
    ensures (forall acts, h :: !LeavesOut(env, acts, h)) <==>
              && !env.mayKill && !env.mayFail
              && (!env.mayLose || env.Limit() == 1 || env.Limit() >= TWO63 || env.catchupThreshold == MAX_HEIGHT)
  {
    if env.Safe() {
      forall acts, h ensures !LeavesOut(env, acts, h) {
        if ValidRun(env, INITIAL, acts) {
          CoverageAlways(env, acts, h);
        }
      }
    } else if env.mayKill {
      TerminationLeavesOut(env);
    } else if env.mayFail {
      FailureLeavesOut(env);
    } else {
      var acts, h := LossLeavesOut(env);
    }
  }

  // ---------------------------------------------------------------- coverage and commit safety together

  /** Over one progress log: when the work of a run in a safe environment is finished, all twenty entities of every height
      from 1 to the largest recorded one are in production. */
  lemma QuiescentInProduction(env: Environment, acts: seq<Action>, commits: seq<CommitProtocol.Action>, h: uint64)
    requires env.Safe() && ValidRun(env, INITIAL, acts) && Quiescent(After(env, INITIAL, acts))
    requires CommitProtocol.ValidRun(CommitProtocol.WELL_BEHAVED, CommitProtocol.INITIAL, commits)
    requires
      var final := CommitProtocol.After(CommitProtocol.WELL_BEHAVED, CommitProtocol.INITIAL, commits);
      forall g: uint64 :: g in After(env, INITIAL, acts).log <==> g in final.log
    ensures
      1 <= h <= LastIndexed(After(env, INITIAL, acts).log) ==>
        CommitProtocol.AllPromoted(CommitProtocol.After(CommitProtocol.WELL_BEHAVED, CommitProtocol.INITIAL, commits), h)
  {
    QuiescentHasNoGaps(env, acts);
    if 1 <= h <= LastIndexed(After(env, INITIAL, acts).log) {
      CommitProtocol.CommitSafety(commits, h);
    }
  }
}
