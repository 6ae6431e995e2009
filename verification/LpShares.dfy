/** ComputeLPSnapshots: the newest holder row per position, and the stored pool share. */
module LpShares {
  import opened Integers
  import opened Lists

  const WHOLE := 100 * 1000000

  datatype PointRow = PointRow(address: string, pool: uint64, height: nat, points: uint64, balance: uint64)
  datatype PoolTotal = PoolTotal(pool: uint64, total: uint64)
  datatype Position = Position(address: string, pool: uint64)
  datatype Snapshot = Snapshot(
    position: Position, balance: uint64, share: nat, created: int, closed: Option<int>, active: bool)

  function PositionOf(r: PointRow): Position { Position(r.address, r.pool) }

  function PoolOf(t: PoolTotal): uint64 { t.pool }

  /** points * 100 * 1000000 in 64 bits (wrapping after either factor is the same), then divided. */
  function Share(points: uint64, total: uint64): nat
    requires total > 0
  {
    Wrap64(points * WHOLE) / total
  }

  // ---------------------------------------------------------------- newest row per position

  /** ORDER BY address, pool_id, height DESC: the rows of one position come newest first. */
  ghost predicate NewestFirst(rows: seq<PointRow>) {
    forall i, j :: 0 <= i < j < |rows| && PositionOf(rows[i]) == PositionOf(rows[j]) ==> rows[i].height > rows[j].height
  }

  function FirstPerPosition(rows: seq<PointRow>): seq<PointRow> {
    if rows == [] then []
    else
      var rest, r := rows[..|rows| - 1], rows[|rows| - 1];
      if PositionOf(r) in MapBy(rest, PositionOf) then FirstPerPosition(rest) else FirstPerPosition(rest) + [r]
  }

  lemma {:induction false} KeptIsRow(rows: seq<PointRow>, k: PointRow)
    ensures k in FirstPerPosition(rows) ==> k in rows
  {
    if rows != [] {
      KeptIsRow(rows[..|rows| - 1], k);
    }
  }

  lemma {:induction false} KeptDistinct(rows: seq<PointRow>)
    ensures Distinct(FirstPerPosition(rows), PositionOf)
  {
    if rows != [] {
      var rest, last := rows[..|rows| - 1], rows[|rows| - 1];
      KeptDistinct(rest);
      MapByFinds(rest, PositionOf, PositionOf(last));
      forall k | k in FirstPerPosition(rest) ensures k in rest {
        KeptIsRow(rest, k);
      }
    }
  }

  ghost predicate KeptFor(kept: seq<PointRow>, r: PointRow) {
    exists k :: k in kept && PositionOf(k) == PositionOf(r) && r.height <= k.height
  }

  /** The row kept for a position is a newest one. */
  lemma {:induction false} KeptIsNewest(rows: seq<PointRow>, i: nat)
    requires NewestFirst(rows) && i < |rows|
    ensures KeptFor(FirstPerPosition(rows), rows[i])
  {
    var rest, last := rows[..|rows| - 1], rows[|rows| - 1];
    if i < |rest| {
      KeptIsNewest(rest, i);
      KeptForGrows(FirstPerPosition(rest), last, rows[i]);
    } else if PositionOf(last) in MapBy(rest, PositionOf) {
      MapByFinds(rest, PositionOf, PositionOf(last));
      var j :| 0 <= j < |rest| && PositionOf(rest[j]) == PositionOf(last);
      KeptIsNewest(rest, j);
      assert rows[j].height > rows[i].height;
      var k :| k in FirstPerPosition(rest) && PositionOf(k) == PositionOf(rest[j]) && rest[j].height <= k.height;
      assert KeptFor(FirstPerPosition(rest), last);
    } else {
      assert last in FirstPerPosition(rows);
    }
  }

  lemma KeptForGrows(kept: seq<PointRow>, last: PointRow, r: PointRow)
    requires KeptFor(kept, r)
    ensures KeptFor(kept + [last], r)
  {
    var k :| k in kept && PositionOf(k) == PositionOf(r) && r.height <= k.height;
    assert k in kept + [last];
  }

  /** The deduplication loop over the rows the query returned. */
  method DedupNewest(rows: seq<PointRow>) returns (kept: seq<PointRow>)
    ensures kept == FirstPerPosition(rows)
  {
    var seen: set<Position> := {};
    kept := [];
    for i := 0 to |rows|
      invariant kept == FirstPerPosition(rows[..i])
      invariant seen == MapBy(rows[..i], PositionOf).Keys
    {
      assert rows[..i + 1][..i] == rows[..i];
      if PositionOf(rows[i]) !in seen {
        kept := kept + [rows[i]];
        seen := seen + {PositionOf(rows[i])};
      }
    }
    assert rows[..|rows|] == rows;
  }

  // ---------------------------------------------------------------- shares

  /** Missing pools and pools without points have share 0. The totals come in no particular order and the
      last row of a pool wins. */
  function ShareIn(r: PointRow, totals: map<uint64, PoolTotal>): nat {
    if r.pool in totals && totals[r.pool].total > 0 then Share(r.points, totals[r.pool].total) else 0
  }

  /** The total used for a pool is that of its last row; without a row, or with a total of 0, the share is 0. */
  lemma ShareInMeans(r: PointRow, totals: seq<PoolTotal>)
    ensures (forall t :: t in totals ==> t.pool != r.pool) ==> ShareIn(r, MapBy(totals, PoolOf)) == 0
    ensures forall i :: 0 <= i < |totals| && LastOfPool(totals, r.pool, i) ==>
              ShareIn(r, MapBy(totals, PoolOf)) == if totals[i].total == 0 then 0 else Share(r.points, totals[i].total)
  {
    var all := (t: PoolTotal) => Some(t);
    KeepAll(totals, all);
    SelectedLast(totals, all, PoolOf, r.pool);
    assert forall t: PoolTotal :: Selects(all, PoolOf, r.pool, t) <==> t.pool == r.pool;
  }

  predicate LastOfPool(totals: seq<PoolTotal>, pool: uint64, i: nat)
    requires i < |totals|
  {
    totals[i].pool == pool && forall j :: i < j < |totals| ==> totals[j].pool != pool
  }

  /** The snapshot of a kept row: created at the target date unless known better, closed there once it has no points. */
  function SnapshotOf(r: PointRow, totals: map<uint64, PoolTotal>, createdDates: map<Position, int>, target: int): Snapshot {
    Snapshot(PositionOf(r), r.balance, ShareIn(r, totals),
             if PositionOf(r) in createdDates then createdDates[PositionOf(r)] else target,
             if r.points > 0 then None else Some(target), r.points > 0)
  }

  method ComputeSnapshots(
    rows: seq<PointRow>, totalRows: seq<PoolTotal>, createdDates: map<Position, int>, target: int)
    returns (snapshots: seq<Snapshot>)
    ensures |snapshots| == |FirstPerPosition(rows)|
    ensures forall k :: 0 <= k < |snapshots| ==>
              snapshots[k] == SnapshotOf(FirstPerPosition(rows)[k], MapBy(totalRows, PoolOf), createdDates, target)
    ensures forall k :: 0 <= k < |snapshots| ==>
              var r, s := FirstPerPosition(rows)[k], snapshots[k];
              && s.position == Position(r.address, r.pool) && s.balance == r.balance && (s.active <==> r.points > 0)
              && s.closed == (if r.points == 0 then Some(target) else None)
              && s.created == (if Position(r.address, r.pool) in createdDates
                               then createdDates[Position(r.address, r.pool)] else target)
  {
    var kept := DedupNewest(rows);
    var totals := IndexBy(totalRows, PoolOf);
    snapshots := [];
    for i := 0 to |kept|
      invariant |snapshots| == i
      invariant forall k :: 0 <= k < i ==>
                  snapshots[k] == SnapshotOf(kept[k], totals, createdDates, target)
    {
      var r := kept[i];
      var share: nat := 0;
      if r.pool in totals && totals[r.pool].total > 0 {
        share := Share(r.points, totals[r.pool].total);
      }
      var created := target;
      if PositionOf(r) in createdDates {
        created := createdDates[PositionOf(r)];
      }
      var active := r.points > 0;
      var closed := None;
      if !active {
        closed := Some(target);
      }
      snapshots := snapshots + [Snapshot(PositionOf(r), r.balance, share, created, closed, active)];
    }
  }

  /** The newest row of a position, and no other row of it, yields a snapshot. */
  lemma OnlyNewestIsKept(rows: seq<PointRow>, r: PointRow)
    requires NewestFirst(rows) && r in rows
    ensures r in FirstPerPosition(rows) <==> forall q :: q in rows && PositionOf(q) == PositionOf(r) ==> q.height <= r.height
  {
    var kept := FirstPerPosition(rows);
    var i :| 0 <= i < |rows| && rows[i] == r;
    KeptIsNewest(rows, i);
    var k :| k in kept && PositionOf(k) == PositionOf(r) && r.height <= k.height;
    KeptIsRow(rows, k);
    if k.height == r.height {
      NewestIsUnique(rows, r, k);
    }
    KeptDistinct(rows);
    if r in kept {
      forall q | q in rows && PositionOf(q) == PositionOf(r) ensures q.height <= r.height {
        var j :| 0 <= j < |rows| && rows[j] == q;
        KeptIsNewest(rows, j);
        var m :| m in kept && PositionOf(m) == PositionOf(q) && q.height <= m.height;
        SameKept(kept, m, r);
      }
    }
  }

  lemma SameKept(kept: seq<PointRow>, a: PointRow, b: PointRow)
    requires Distinct(kept, PositionOf) && a in kept && b in kept && PositionOf(a) == PositionOf(b)
    ensures a == b
  {
    var i :| 0 <= i < |kept| && kept[i] == a;
    var j :| 0 <= j < |kept| && kept[j] == b;
  }

  lemma NewestIsUnique(rows: seq<PointRow>, r: PointRow, k: PointRow)
    requires NewestFirst(rows) && r in rows && k in rows && PositionOf(k) == PositionOf(r) && r.height == k.height
    ensures r == k
  {
    var i :| 0 <= i < |rows| && rows[i] == r;
    var j :| 0 <= j < |rows| && rows[j] == k;
  }

  /** The stored share is the floor of the exact share precisely when the product fits in 64 bits; no wider
      arithmetic is involved. */
  lemma ShareExactIff(points: uint64, total: uint64)
    requires total > 0
    ensures Share(points, total) == points * 100_000_000 / total <==> points * 100_000_000 < TWO64
  {
    WrapFits(points * WHOLE);
    var exact, wrapped := points * WHOLE, Wrap64(points * WHOLE);
    if exact >= TWO64 {
      LargerQuotient(wrapped, exact, total);
    }
  }

  lemma LargerQuotient(a: nat, b: nat, total: nat)
    requires total > 0 && a + total <= b
    ensures a / total < b / total
  {
    Floor(a, total);
    Floor(b, total);
    if b / total < a / total + 1 {
      Scale(b / total, a / total, total);
    }
  }

  lemma Floor(a: nat, total: nat)
    requires total > 0
    ensures (a / total) * total <= a < (a / total) * total + total
  {
  }

  function Sum(points: seq<uint64>): nat {
    if points == [] then 0 else Sum(points[..|points| - 1]) + points[|points| - 1]
  }

  function SumShares(points: seq<uint64>, total: uint64): nat
    requires total > 0
  {
    if points == [] then 0 else SumShares(points[..|points| - 1], total) + Share(points[|points| - 1], total)
  }

  /** The product points * 10^8 fits in 64 bits. */
  predicate Fits(points: uint64) {
    points * WHOLE < TWO64
  }

  lemma OneShare(points: uint64, total: uint64)
    requires total > 0 && Fits(points)
    ensures Share(points, total) * total <= points * WHOLE < Share(points, total) * total + total
  {
    ShareExactIff(points, total);
    Floor(points * WHOLE, total);
  }

  lemma {:induction false} SharesBracket(points: seq<uint64>, total: uint64)
    requires total > 0 && forall p :: p in points ==> Fits(p)
    ensures SumShares(points, total) * total <= Sum(points) * WHOLE
    ensures points != [] ==> Sum(points) * WHOLE < (SumShares(points, total) + |points|) * total
  {
    if points != [] {
      var rest, p := points[..|points| - 1], points[|points| - 1];
      assert points == rest + [p];
      SharesBracket(rest, total);
      OneShare(p, total);
      BracketStep(SumShares(rest, total), Share(p, total), |rest|, Sum(rest) * WHOLE, p * WHOLE, total);
    }
  }

  lemma BracketStep(a: nat, b: nat, n: nat, s: nat, p: nat, total: nat)
    requires a * total <= s && (if n == 0 then a == s == 0 else s < (a + n) * total)
    requires b * total <= p < b * total + total
    ensures (a + b) * total <= s + p < (a + b + n + 1) * total
  {
    assert (a + b) * total == a * total + b * total;
    assert (a + b + n + 1) * total == (a + n) * total + b * total + total;
  }

  /** If the points of a pool add up to its total and no product overflows, its n shares add up to at most one
      whole, and to more than one whole less n units. */
  lemma SharesSum(points: seq<uint64>, total: uint64)
    requires total > 0 && Sum(points) == total && forall p :: p in points ==> p <= (TWO64 - 1) / WHOLE
    ensures WHOLE - |points| < SumShares(points, total) <= WHOLE
  {
    assert points != [];
    forall p | p in points ensures Fits(p) {
    }
    SharesBracket(points, total);
    var s, n := SumShares(points, total), |points|;
    if s > WHOLE {
      Scale(WHOLE + 1, s, total);
    }
    if s + n <= WHOLE {
      Scale(s + n, WHOLE, total);
    }
  }
}
