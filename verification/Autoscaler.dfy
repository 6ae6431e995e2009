/** The controller: replica targets from the queue backlog, the cooldown between
    changes, and the reconcile tick that applies them. */
module Autoscaler {
  import opened Integers
  import opened Lists

  const LOW_WATERMARK := 10
  const HIGH_WATERMARK := 1000
  const SCALE_COOLDOWN := 60_000_000_000

  datatype Limits = Limits(lo: int, hi: int) {
    predicate Valid() {
      1 <= lo <= hi
    }
  }

  /** The last accepted replica count (0 before the first) and when it was accepted. */
  datatype ScaleState = ScaleState(last: int, changedAt: int)

  const FRESH := ScaleState(0, 0)

  /** The order of the repairs inside DesiredReplicas. */
  function Normalized(minReplicas: int, maxReplicas: int): (l: Limits)
    ensures l.Valid()
    ensures minReplicas >= 1 ==> l.lo == minReplicas
    ensures maxReplicas >= l.lo ==> l.hi == maxReplicas
  {
    var hi0 := if maxReplicas < minReplicas then minReplicas else maxReplicas;
    var lo := if minReplicas <= 0 then 1 else minReplicas;
    Limits(lo, if hi0 <= 0 then lo else hi0)
  }

  /** The order of the repairs when rows are loaded. */
  function LoadedLimits(minReplicas: int, maxReplicas: int): Limits {
    var lo := if minReplicas <= 0 then 1 else minReplicas;
    Limits(lo, if maxReplicas < lo then lo else maxReplicas)
  }

  /** The two orders agree, and repairing twice changes nothing. */
  lemma NormalizationsAgree(minReplicas: int, maxReplicas: int)
    ensures LoadedLimits(minReplicas, maxReplicas) == Normalized(minReplicas, maxReplicas)
    ensures
      var l := LoadedLimits(minReplicas, maxReplicas);
      Normalized(l.lo, l.hi) == l
  {
  }

  /** ceil(a / b). */
  function Ceiling(a: int, b: int): int
    requires b > 0
  {
    (a + b - 1) / b
  }

  /** The replica count a backlog calls for, with the ratio taken exactly. */
  function Target(l: Limits, backlog: int): int {
    if backlog >= HIGH_WATERMARK then l.hi
    else if backlog <= LOW_WATERMARK then l.lo
    else l.lo + Ceiling((backlog - LOW_WATERMARK) * (l.hi - l.lo), HIGH_WATERMARK - LOW_WATERMARK)
  }

  lemma CeilingBounds(part: int, span: int)
    requires 0 <= part <= HIGH_WATERMARK - LOW_WATERMARK && span >= 0
    ensures 0 <= Ceiling(part * span, HIGH_WATERMARK - LOW_WATERMARK) <= span
  {
    Scale(part, HIGH_WATERMARK - LOW_WATERMARK, span);
    Scale(0, part, span);
  }

  /** The target is in the limits and grows with the backlog. */
  lemma TargetMonotone(l: Limits, a: int, b: int)
    requires l.Valid() && a <= b
    ensures l.lo <= Target(l, a) <= Target(l, b) <= l.hi
  {
    if LOW_WATERMARK < a < HIGH_WATERMARK {
      CeilingBounds(a - LOW_WATERMARK, l.hi - l.lo);
    }
    if LOW_WATERMARK < b < HIGH_WATERMARK {
      CeilingBounds(b - LOW_WATERMARK, l.hi - l.lo);
    }
    if LOW_WATERMARK < a && b < HIGH_WATERMARK {
      Scale(a - LOW_WATERMARK, b - LOW_WATERMARK, l.hi - l.lo);
    }
  }

  /** Between the watermarks 10 and 1000 the target is the least count whose share of the span covers the backlog's. */
  lemma TargetIsLeast(l: Limits, backlog: int)
    requires l.Valid()
    ensures backlog <= 10 ==> Target(l, backlog) == l.lo
    ensures backlog >= 1000 ==> Target(l, backlog) == l.hi
    ensures 10 < backlog < 1000 ==>
              var extra := Target(l, backlog) - l.lo;
              (extra - 1) * 990 < (backlog - 10) * (l.hi - l.lo) <= extra * 990
  {
  }

  // ---------------------------------------------------------------- one chain, many decisions

  /** The state after a decision. What is returned is its last count, except that equal limits win over it. */
  function Decide(l: Limits, s: ScaleState, now: int, target: int): ScaleState {
    if s.last == 0 then ScaleState(target, now)
    else if l.lo == l.hi || target == s.last || now - s.changedAt < SCALE_COOLDOWN then s
    else ScaleState(target, now)
  }

  class Chain {
    var minReplicas: int
    var maxReplicas: int
    var replicas: int
    var hysteresis: ScaleState

    constructor (minReplicas: int, maxReplicas: int)
      ensures this.minReplicas == replicas == minReplicas && this.maxReplicas == maxReplicas && hysteresis == FRESH
    {
      this.minReplicas, this.maxReplicas, replicas := minReplicas, maxReplicas, minReplicas;
      hysteresis := FRESH;
    }

    method DesiredReplicas(now: int, workflowTasks: int64, activityTasks: int64) returns (desired: int)
      modifies this`hysteresis
      ensures
        var l := Normalized(minReplicas, maxReplicas);
        var target := Target(l, Signed64(workflowTasks + activityTasks));
        && hysteresis == Decide(l, old(hysteresis), now, target)
        && desired == if l.lo == l.hi then l.lo else hysteresis.last
    {
      var lo, hi := minReplicas, maxReplicas;
      if hi < lo {
        hi := lo;
      }
      if lo <= 0 {
        lo := 1;
      }
      if hi <= 0 {
        hi := lo;
      }
      TargetMonotone(Limits(lo, hi), Signed64(workflowTasks + activityTasks), Signed64(workflowTasks + activityTasks));
      if hi == lo {
        if hysteresis.last == 0 {
          hysteresis := ScaleState(lo, now);
        }
        return lo;
      }
      var backlog: int := Signed64(workflowTasks + activityTasks);
      if backlog >= HIGH_WATERMARK {
        desired := hi;
      } else if backlog <= LOW_WATERMARK {
        desired := lo;
      } else {
        desired := lo + Ceiling((backlog - LOW_WATERMARK) * (hi - lo), HIGH_WATERMARK - LOW_WATERMARK);
      }
      if hysteresis.last == 0 {
        hysteresis := ScaleState(desired, now);
      } else if desired != hysteresis.last {
        if now - hysteresis.changedAt < SCALE_COOLDOWN {
          desired := hysteresis.last;
        } else {
          hysteresis := ScaleState(desired, now);
        }
      }
    }
  }

  datatype Tick = Tick(now: int, backlog: int)

  /** The state of one Chain value after a run of decisions with fixed limits. */
  function StateAfter(l: Limits, ticks: seq<Tick>): ScaleState {
    if ticks == [] then FRESH
    else
      var t := ticks[|ticks| - 1];
      Decide(l, StateAfter(l, ticks[..|ticks| - 1]), t.now, Target(l, t.backlog))
  }

  /** Decision i changed the accepted count; the first one always does. */
  predicate Accepted(l: Limits, ticks: seq<Tick>, i: nat)
    requires i < |ticks|
  {
    StateAfter(l, ticks[..i + 1]).last != StateAfter(l, ticks[..i]).last
  }

  lemma {:induction false} StateInRange(l: Limits, ticks: seq<Tick>)
    requires l.Valid() && ticks != []
    ensures l.lo <= StateAfter(l, ticks).last <= l.hi
  {
    var t := ticks[|ticks| - 1];
    TargetMonotone(l, t.backlog, t.backlog);
    if |ticks| > 1 {
      StateInRange(l, ticks[..|ticks| - 1]);
    }
  }

  /** Since an accepted change the time stamp has not gone back. */
  lemma {:induction false} StampHolds(l: Limits, ticks: seq<Tick>, i: nat, j: nat)
    requires l.Valid() && i < j <= |ticks| && Accepted(l, ticks, i)
    ensures StateAfter(l, ticks[..j]).changedAt >= ticks[i].now
  {
    assert ticks[..j][..j - 1] == ticks[..j - 1];
    if j == i + 1 {
      assert StateAfter(l, ticks[..j]).changedAt == ticks[i].now;
    } else {
      StampHolds(l, ticks, i, j - 1);
      StateInRange(l, ticks[..j - 1]);
    }
  }

  /** With fixed limits, any two accepted changes are at least the cooldown apart, whatever the clock and backlog do. */
  lemma CooldownOverRuns(l: Limits, ticks: seq<Tick>, i: nat, j: nat)
    requires l.Valid() && i < j < |ticks| && Accepted(l, ticks, i) && Accepted(l, ticks, j)
    ensures ticks[j].now - ticks[i].now >= 60_000_000_000
  {
    StampHolds(l, ticks, i, j);
    StateInRange(l, ticks[..j]);
    assert ticks[..j + 1][..j] == ticks[..j];
  }

  /** The accepted count lags behind the target only while the cooldown of an earlier change runs. */
  lemma LagsOnlyInCooldown(l: Limits, ticks: seq<Tick>)
    requires l.Valid() && ticks != []
    ensures
      var t, before := ticks[|ticks| - 1], StateAfter(l, ticks[..|ticks| - 1]);
      StateAfter(l, ticks).last == Target(l, t.backlog)
      || (before.last != 0 && t.now - before.changedAt < 60_000_000_000)
  {
    var t := ticks[|ticks| - 1];
    TargetMonotone(l, t.backlog, t.backlog);
    StateInRange(l, ticks);
  }

  // ---------------------------------------------------------------- the reconcile tick

  datatype Row = Row(id: nat, minReplicas: int, maxReplicas: int, paused: bool, deleted: bool)
  datatype QueueStats = QueueStats(workflowTasks: int64, activityTasks: int64)

  function RowId(r: Row): nat { r.id }

  function Backlog(q: QueueStats): int {
    Signed64(q.workflowTasks + q.activityTasks)
  }

  /** What a tick makes of a row: no deployment, or a number of replicas. It depends on this row and this
      tick's statistics (None if they could not be read) only. */
  function Memoryless(r: Row, stats: Option<QueueStats>): Option<int> {
    var l := Normalized(r.minReplicas, r.maxReplicas);
    if r.deleted then None
    else if r.paused then Some(0)
    else match stats
         case None => Some(l.lo)
         case Some(q) => Some(Target(l, Backlog(q)))
  }

  /** A deleted row has no deployment, a paused one no replicas, one without statistics the minimum, and any other what
      the backlog of both queues calls for. */
  lemma MemorylessMeans(r: Row, stats: Option<QueueStats>)
    ensures Memoryless(r, stats) == None <==> r.deleted
    ensures !r.deleted && r.paused ==> Memoryless(r, stats) == Some(0)
    ensures Active(r) && stats == None ==> Memoryless(r, stats) == Some(if r.minReplicas >= 1 then r.minReplicas else 1)
    ensures Active(r) && stats.Some? ==>
              var lo := if r.minReplicas >= 1 then r.minReplicas else 1;
              var hi := if r.maxReplicas >= lo then r.maxReplicas else lo;
              Memoryless(r, stats) == Some(Target(Limits(lo, hi), Signed64(stats.value.workflowTasks + stats.value.activityTasks)))
  {
    NormalizationsAgree(r.minReplicas, r.maxReplicas);
  }

  predicate Active(r: Row) {
    !r.paused && !r.deleted
  }

  /** What one chain value that outlives its ticks decides for a row in the second of two ticks. */
  function Lasting(r: Row, first: QueueStats, at: int, second: QueueStats, later: int): int {
    StateAfter(Normalized(r.minReplicas, r.maxReplicas), [Tick(at, Backlog(first)), Tick(later, Backlog(second))]).last
  }

  /** The second of two ticks deploys what a lasting chain value would, if and only if the targets are the same or the
      ticks are at least the cooldown apart: the cooldown is forgotten between ticks. */
  lemma CooldownIsForgotten(r: Row, first: QueueStats, at: int, second: QueueStats, later: int)
    requires Active(r)
    ensures Memoryless(r, Some(second)) == Some(Lasting(r, first, at, second, later)) <==>
              Memoryless(r, Some(first)) == Memoryless(r, Some(second)) || later - at >= 60_000_000_000
  {
    var l := Normalized(r.minReplicas, r.maxReplicas);
    var ticks := [Tick(at, Backlog(first)), Tick(later, Backlog(second))];
    TargetMonotone(l, Backlog(first), Backlog(first));
    assert ticks[..1] == [ticks[0]] && ticks[..1][..0] == [];
    assert StateAfter(l, ticks[..1]) == ScaleState(Target(l, Backlog(first)), at);
  }

  /** One second apart, a row with limits 1 and 10 goes from 1 to 10 replicas; with a lasting chain value it would stay
      at 1 until a minute has passed. */
  lemma TenTimesInOneSecond()
    ensures
      var r, idle, busy := Row(1, 1, 10, false, false), QueueStats(0, 0), QueueStats(1000, 0);
      && Memoryless(r, Some(idle)) == Some(1) && Memoryless(r, Some(busy)) == Some(10)
      && Lasting(r, idle, 0, busy, 1_000_000_000) == 1
      && Lasting(r, idle, 0, busy, 60_000_000_000) == 10
  {
    var ticks := [Tick(0, 0), Tick(1_000_000_000, 1000)];
    var spaced := [Tick(0, 0), Tick(SCALE_COOLDOWN, 1000)];
    assert ticks[..1] == spaced[..1] == [ticks[0]] && ticks[..1][..0] == [];
    assert StateAfter(Limits(1, 10), ticks[..1]) == ScaleState(1, 0);
  }

  /** The deployments, and the chains believed to run, after a pass over some rows. */
  function Deployed(before: map<nat, int>, rows: seq<Row>, stats: nat -> Option<QueueStats>): map<nat, int> {
    if rows == [] then before
    else
      var r, rest := rows[|rows| - 1], Deployed(before, rows[..|rows| - 1], stats);
      match Memoryless(r, stats(r.id))
      case None => rest - {r.id}
      case Some(n) => rest[r.id := n]
  }

  function Running(before: set<nat>, rows: seq<Row>): set<nat> {
    if rows == [] then before
    else
      var r, rest := rows[|rows| - 1], Running(before, rows[..|rows| - 1]);
      if r.deleted then rest - {r.id} else rest + {r.id}
  }

  /** A pass gives every row what its own statistics call for and leaves everything else alone. */
  lemma DeployedEverywhere(before: map<nat, int>, ids: set<nat>, rows: seq<Row>, stats: nat -> Option<QueueStats>)
    requires Distinct(rows, RowId)
    ensures forall r :: r in rows ==>
              Get(Deployed(before, rows, stats), r.id) == Memoryless(r, stats(r.id)) && (r.id in Running(ids, rows) <==> !r.deleted)
    ensures forall id: nat :: (forall r :: r in rows ==> r.id != id) ==>
              Get(Deployed(before, rows, stats), id) == Get(before, id) && (id in Running(ids, rows) <==> id in ids)
  {
    forall r | r in rows
      ensures Get(Deployed(before, rows, stats), r.id) == Memoryless(r, stats(r.id))
      ensures r.id in Running(ids, rows) <==> !r.deleted
    {
      DeployedAt(before, ids, rows, stats, r);
    }
    forall id: nat | forall r :: r in rows ==> r.id != id
      ensures Get(Deployed(before, rows, stats), id) == Get(before, id) && (id in Running(ids, rows) <==> id in ids)
    {
      NotDeployed(before, ids, rows, stats, id);
    }
  }

  lemma {:induction false} NotDeployed(
    before: map<nat, int>, ids: set<nat>, rows: seq<Row>, stats: nat -> Option<QueueStats>, id: nat)
    requires forall r :: r in rows ==> r.id != id
    ensures Get(Deployed(before, rows, stats), id) == Get(before, id)
    ensures id in Running(ids, rows) <==> id in ids
  {
    if rows != [] {
      assert rows[|rows| - 1] in rows;
      NotDeployed(before, ids, rows[..|rows| - 1], stats, id);
    }
  }

  lemma {:induction false} DeployedAt(
    before: map<nat, int>, ids: set<nat>, rows: seq<Row>, stats: nat -> Option<QueueStats>, r: Row)
    requires Distinct(rows, RowId) && r in rows
    ensures Get(Deployed(before, rows, stats), r.id) == Memoryless(r, stats(r.id))
    ensures r.id in Running(ids, rows) <==> !r.deleted
  {
    var t, last := rows[..|rows| - 1], rows[|rows| - 1];
    if r != last {
      var i :| 0 <= i < |rows| && rows[i] == r;
      assert t[i] == r && RowId(rows[i]) != RowId(rows[|rows| - 1]);
      DeployedAt(before, ids, t, stats, r);
    }
  }

  class Controller {
    /** Chains believed to be applied, with their replicas. */
    var running: map<nat, int>
    /** What the provider has deployed. */
    var deployments: map<nat, int>

    constructor ()
      ensures running == map[] && deployments == map[]
    {
      running, deployments := map[], map[];
    }

    method PopulateChain(r: Row, stats: Option<QueueStats>, now: int) returns (replicas: int)
      ensures Memoryless(r, stats) == if r.deleted then None else Some(replicas)
    {
      var limits := LoadedLimits(r.minReplicas, r.maxReplicas);
      NormalizationsAgree(r.minReplicas, r.maxReplicas);
      var ch := new Chain(limits.lo, limits.hi);
      if r.paused || r.deleted {
        return 0;
      }
      match stats {
        case None =>
          return ch.minReplicas;
        case Some(q) =>
          TargetMonotone(limits, Backlog(q), Backlog(q));
          replicas := ch.DesiredReplicas(now, q.workflowTasks, q.activityTasks);
      }
    }

    /** One row of a tick: its chain is populated and applied. */
    method ApplyRow(r: Row, stats: Option<QueueStats>, now: int)
      modifies this
      ensures deployments == match Memoryless(r, stats)
                             case None => old(deployments) - {r.id}
                             case Some(n) => old(deployments)[r.id := n]
      ensures running.Keys == if r.deleted then old(running).Keys - {r.id} else old(running).Keys + {r.id}
    {
      var replicas := PopulateChain(r, stats, now);
      if r.deleted {
        deployments := deployments - {r.id};
        running := running - {r.id};
      } else {
        deployments := deployments[r.id := if r.paused then 0 else replicas];
        running := running[r.id := replicas];
      }
    }

    /** The pass over the rows; a provider call that fails ends it. */
    method ApplyRows(rows: seq<Row>, stats: nat -> Option<QueueStats>, now: int, broken: set<nat>) returns (ok: bool)
      requires Distinct(rows, RowId)
      modifies this
      ensures ok <==> forall r :: r in rows ==> r.id !in broken
      ensures ok ==> deployments == Deployed(old(deployments), rows, stats) && running.Keys == Running(old(running).Keys, rows)
    {
      for i := 0 to |rows|
        invariant forall r :: r in rows[..i] ==> r.id !in broken
        invariant deployments == Deployed(old(deployments), rows[..i], stats)
        invariant running.Keys == Running(old(running).Keys, rows[..i])
      {
        var r := rows[i];
        if r.id in broken {
          assert r in rows;
          return false;
        }
        ApplyRow(r, stats(r.id), now);
        assert rows[..i + 1] == rows[..i] + [r] && rows[..i + 1][..i] == rows[..i];
      }
      assert rows[..|rows|] == rows;
      return true;
    }

    /** One tick. Provider calls for the chains in broken fail: during the pass over the rows that ends the
        tick, while pruning it is only logged. */
    method Reconcile(rows: seq<Row>, stats: nat -> Option<QueueStats>, now: int, broken: set<nat>) returns (ok: bool)
      requires Distinct(rows, RowId)
      modifies this
      ensures ok <==> forall r :: r in rows ==> r.id !in broken
      ensures ok ==> forall r :: r in rows ==> Get(deployments, r.id) == Memoryless(r, stats(r.id))
      ensures ok ==> forall id: nat :: (forall r :: r in rows ==> r.id != id) ==>
                Get(deployments, id) ==
                  if id in old(running) && id !in broken then None else old(Get(deployments, id))
      ensures ok ==> forall id :: id in running ==> exists r :: r in rows && r.id == id && !r.deleted
    {
      ok := ApplyRows(rows, stats, now, broken);
      DeployedEverywhere(old(deployments), old(running).Keys, rows, stats);
      if ok {
        Prune(set r | r in rows :: r.id, broken);
      }
    }

    /** Two ticks over the same rows. The deployed replicas of an active row with readable statistics differ if and only
        if its two targets do, whatever the time between the ticks. */
    method ReconcileTwice(
      rows: seq<Row>, first: nat -> QueueStats, at: int, second: nat -> QueueStats, later: int, broken: set<nat>)
      returns (ok: bool, between: map<nat, int>)
      requires Distinct(rows, RowId)
      modifies this
      ensures ok <==> forall r :: r in rows ==> r.id !in broken
      ensures ok ==> forall r :: r in rows && Active(r) ==>
                var l := Normalized(r.minReplicas, r.maxReplicas);
                && r.id in between && r.id in deployments
                && (between[r.id] == deployments[r.id] <==>
                      Target(l, Backlog(first(r.id))) == Target(l, Backlog(second(r.id))))
    {
      ok := Reconcile(rows, (id: nat) => Some(first(id)), at, broken);
      between := deployments;
      if ok {
        ok := Reconcile(rows, (id: nat) => Some(second(id)), later, broken);
      }
    }

    /** Chains that disappeared from the database are forgotten, and deleted where the provider can. */
    method Prune(desired: set<nat>, broken: set<nat>)
      modifies this
      ensures running == old(running) - (old(running).Keys - desired)
      ensures forall id :: Get(deployments, id) ==
                if id in old(running) && id !in desired && id !in broken then None else old(Get(deployments, id))
    {
      var missing := running.Keys - desired;
      deployments := deployments - (missing - broken);
      running := running - missing;
    }
  }
}
