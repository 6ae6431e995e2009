/** Queries over the progress log: the highest recorded height, the gaps below
    it, and the range HeadScan adds above it. */
module Progress {
  import opened Integers
  import opened Lists
  import opened Scheduler

  const MAX_HEIGHT: uint64 := 0xFFFF_FFFF_FFFF_FFFF

  datatype Gap = Gap(from: uint64, to: uint64) {
    predicate Has(h: uint64) {
      from <= h <= to
    }
  }

  /** max(height), 0 on an empty log. */
  function LastIndexed(log: seq<uint64>): uint64 {
    if log == [] then 0
    else
      var rest := LastIndexed(log[..|log| - 1]);
      if log[|log| - 1] > rest then log[|log| - 1] else rest
  }

  function Insert(rows: seq<uint64>, h: uint64): seq<uint64> {
    if rows == [] || rows[|rows| - 1] <= h then rows + [h]
    else Insert(rows[..|rows| - 1], h) + [rows[|rows| - 1]]
  }

  /** ORDER BY height. */
  function Ordered(log: seq<uint64>): seq<uint64> {
    if log == [] then [] else Insert(Ordered(log[..|log| - 1]), log[|log| - 1])
  }

  /** One gap per adjacent pair of rows that leaves a hole. The sum is taken in 64 bits, as the query does. */
  function GapsOf(rows: seq<uint64>): seq<Gap> {
    if |rows| < 2 then []
    else
      GapsOf(rows[..|rows| - 1]) + GapBetween(rows[|rows| - 2], rows[|rows| - 1])
  }

  function GapBetween(prev: uint64, h: uint64): seq<Gap> {
    if h > Wrap64(prev + 1) then [Gap(Wrap64(prev + 1), h - 1)] else []
  }

  function FindGaps(log: seq<uint64>): seq<Gap> {
    GapsOf(Ordered(log))
  }

  /** The heights HeadScan schedules, given the highest recorded height and the head. */
  function HeadRange(last: uint64, latest: uint64): seq<Range> {
    if latest <= last then [] else [Range(last + 1, latest)]
  }

  // ---------------------------------------------------------------- ordering

  ghost predicate Ascending(rows: seq<uint64>) {
    forall i, j :: 0 <= i < j < |rows| ==> rows[i] <= rows[j]
  }

  lemma {:induction false} InsertKeeps(rows: seq<uint64>, h: uint64)
    ensures multiset(Insert(rows, h)) == multiset(rows) + multiset{h}
  {
    if rows != [] && rows[|rows| - 1] > h {
      SplitLast(rows);
      InsertKeeps(rows[..|rows| - 1], h);
    }
  }

  lemma {:induction false} InsertOrders(rows: seq<uint64>, h: uint64)
    requires Ascending(rows)
    ensures Ascending(Insert(rows, h))
    ensures forall x :: x in Insert(rows, h) <==> x == h || x in rows
  {
    if rows != [] && rows[|rows| - 1] > h {
      var t, x := rows[..|rows| - 1], rows[|rows| - 1];
      assert rows == t + [x];
      InsertOrders(t, h);
      var u := Insert(t, h);
      forall i | 0 <= i < |u| ensures u[i] <= x {
        assert u[i] in u;
      }
    }
  }

  lemma {:induction false} OrderedSorts(log: seq<uint64>)
    ensures Ascending(Ordered(log)) && forall h :: h in Ordered(log) <==> h in log
  {
    if log != [] {
      var t := log[..|log| - 1];
      OrderedSorts(t);
      InsertOrders(Ordered(t), log[|log| - 1]);
      assert log == t + [log[|log| - 1]];
    }
  }

  lemma {:induction false} OrderedKeeps(log: seq<uint64>)
    ensures multiset(Ordered(log)) == multiset(log)
  {
    if log != [] {
      var t := log[..|log| - 1];
      OrderedKeeps(t);
      InsertKeeps(Ordered(t), log[|log| - 1]);
      SplitLast(log);
    }
  }

  lemma {:induction false} LastIsMax(log: seq<uint64>)
    requires log != []
    ensures LastIndexed(log) in log && forall h :: h in log ==> h <= LastIndexed(log)
  {
    var t := log[..|log| - 1];
    SplitLast(log);
    if t != [] {
      LastIsMax(t);
    }
  }

  // ---------------------------------------------------------------- gaps of ordered rows

  ghost predicate InGaps(gaps: seq<Gap>, h: uint64) {
    exists g :: g in gaps && g.Has(h)
  }

  /** Only the last row may be the largest height there is. */
  ghost predicate MaxOnce(rows: seq<uint64>) {
    forall i :: 0 <= i < |rows| - 1 ==> rows[i] < MAX_HEIGHT
  }

  lemma InGapsConcat(a: seq<Gap>, b: seq<Gap>, h: uint64)
    ensures InGaps(a + b, h) <==> InGaps(a, h) || InGaps(b, h)
  {
  }

  lemma GapBetweenExact(prev: uint64, last: uint64, h: uint64)
    requires prev <= last && prev < MAX_HEIGHT
    ensures InGaps(GapBetween(prev, last), h) <==> prev < h < last
  {
    assert Wrap64(prev + 1) == prev + 1;
    if prev + 1 < last {
      assert Gap(prev + 1, last - 1) in GapBetween(prev, last);
    }
  }

  lemma LastPair(t: seq<uint64>, last: uint64)
    requires t != []
    ensures GapsOf(t + [last]) == GapsOf(t) + GapBetween(t[|t| - 1], last)
  {
    assert (t + [last])[..|t|] == t;
  }

  ghost predicate CoveredExactly(gaps: seq<Gap>, rows: seq<uint64>, h: uint64)
    requires rows != []
  {
    InGaps(gaps, h) <==> rows[0] <= h <= rows[|rows| - 1] && h !in rows
  }

  lemma CoverGrows(t: seq<uint64>, last: uint64, h: uint64)
    requires t != [] && Ascending(t) && t[|t| - 1] <= last && t[|t| - 1] < MAX_HEIGHT
    requires CoveredExactly(GapsOf(t), t, h)
    ensures CoveredExactly(GapsOf(t) + GapBetween(t[|t| - 1], last), t + [last], h)
  {
    GapBetweenExact(t[|t| - 1], last, h);
    InGapsConcat(GapsOf(t), GapBetween(t[|t| - 1], last), h);
    if t[|t| - 1] < h {
      assert h !in t;
    }
  }

  lemma {:induction false} RowGapsCover(rows: seq<uint64>, h: uint64)
    requires Ascending(rows) && MaxOnce(rows) && rows != []
    ensures CoveredExactly(GapsOf(rows), rows, h)
  {
    if |rows| >= 2 {
      var t, last := rows[..|rows| - 1], rows[|rows| - 1];
      RowGapsCover(t, h);
      assert t[|t| - 1] == rows[|rows| - 2];
      CoverGrows(t, last, h);
      LastPair(t, last);
      SplitLast(rows);
    }
  }

  /** Gaps are nonempty, in ascending order, bounded by recorded heights on both sides, hence disjoint and maximal. */
  ghost predicate WellSeparated(gaps: seq<Gap>, recorded: seq<uint64>) {
    && (forall g :: g in gaps ==> g.from <= g.to && g.from > 0 && g.to < MAX_HEIGHT && g.from - 1 in recorded && g.to + 1 in recorded)
    && (forall i, j :: 0 <= i < j < |gaps| ==> gaps[i].to + 1 < gaps[j].from)
  }

  /** The gaps of ordered rows so far, all below the last row. */
  ghost predicate GapsSoFar(gaps: seq<Gap>, rows: seq<uint64>) {
    WellSeparated(gaps, rows) && forall g :: g in gaps ==> rows != [] && g.to < rows[|rows| - 1]
  }

  lemma GapsSoFarGrow(gaps: seq<Gap>, rows: seq<uint64>, last: uint64)
    requires GapsSoFar(gaps, rows) && rows != [] && rows[|rows| - 1] <= last && rows[|rows| - 1] < MAX_HEIGHT
    ensures GapsSoFar(gaps + GapBetween(rows[|rows| - 1], last), rows + [last])
  {
    var prev := rows[|rows| - 1];
    assert Wrap64(prev + 1) == prev + 1;
    forall i | 0 <= i < |gaps| ensures gaps[i].to + 1 < prev + 1 {
      assert gaps[i] in gaps;
    }
  }

  lemma {:induction false} RowGapsSeparated(rows: seq<uint64>)
    requires Ascending(rows) && MaxOnce(rows)
    ensures GapsSoFar(GapsOf(rows), rows)
  {
    if |rows| >= 2 {
      var t, last := rows[..|rows| - 1], rows[|rows| - 1];
      RowGapsSeparated(t);
      GapsSoFarGrow(GapsOf(t), t, last);
      LastPair(t, last);
      SplitLast(rows);
    }
  }

  // ---------------------------------------------------------------- gaps of a log

  ghost predicate Between(log: seq<uint64>, h: uint64) {
    && (exists a :: a in log && a <= h)
    && (exists b :: b in log && h <= b)
  }

  /** The reported gaps are exactly the unrecorded heights between recorded ones. */
  ghost predicate ExactGaps(log: seq<uint64>) {
    && WellSeparated(FindGaps(log), log)
    && forall h: uint64 :: InGaps(FindGaps(log), h) <==> Between(log, h) && h !in log
  }

  /** Gap exactness holds for every log, with duplicates and in any order, that has the height 2^64 - 1 at most once. */
  lemma GapExactness(log: seq<uint64>)
    ensures ExactGaps(log) <==> multiset(log)[MAX_HEIGHT] <= 1
  {
    if multiset(log)[MAX_HEIGHT] <= 1 {
      GapsAreExact(log);
    } else {
      WrappedGap(log);
    }
  }

  lemma GapsAreExact(log: seq<uint64>)
    requires multiset(log)[MAX_HEIGHT] <= 1
    ensures ExactGaps(log)
  {
    var rows := Ordered(log);
    OrderedSorts(log);
    OrderedKeeps(log);
    MaxTwice(rows);
    RowGapsSeparated(rows);
    forall h: uint64 ensures InGaps(FindGaps(log), h) <==> Between(log, h) && h !in log {
      if rows != [] {
        RowGapsCover(rows, h);
        RowsBetween(log, h);
      }
    }
  }

  lemma WrappedGap(log: seq<uint64>)
    requires multiset(log)[MAX_HEIGHT] > 1
    ensures !ExactGaps(log)
  {
    OrderedSorts(log);
    OrderedKeeps(log);
    TwiceAtTheEnd(Ordered(log));
    WrappedPair(Ordered(log));
    ZeroGapBreaks(log, Gap(0, MAX_HEIGHT - 1));
  }

  lemma WrappedPair(rows: seq<uint64>)
    requires |rows| >= 2 && rows[|rows| - 1] == rows[|rows| - 2] == MAX_HEIGHT
    ensures Gap(0, MAX_HEIGHT - 1) in GapsOf(rows)
  {
    assert Gap(0, MAX_HEIGHT - 1) in GapBetween(MAX_HEIGHT, MAX_HEIGHT);
  }

  lemma ZeroGapBreaks(log: seq<uint64>, g: Gap)
    requires g in FindGaps(log) && g.from == 0
    ensures !ExactGaps(log)
  {
  }

  lemma RowsBetween(log: seq<uint64>, h: uint64)
    requires Ordered(log) != []
    ensures Between(log, h) <==> Ordered(log)[0] <= h <= Ordered(log)[|Ordered(log)| - 1]
  {
    var rows := Ordered(log);
    OrderedSorts(log);
    assert rows[0] in log && rows[|rows| - 1] in log;
    forall a | a in log ensures rows[0] <= a <= rows[|rows| - 1] {
      assert a in rows;
    }
  }

  lemma MaxTwice(rows: seq<uint64>)
    requires Ascending(rows)
    ensures !MaxOnce(rows) ==> multiset(rows)[MAX_HEIGHT] > 1
  {
    if !MaxOnce(rows) {
      var i :| 0 <= i < |rows| - 1 && rows[i] >= MAX_HEIGHT;
      var n := |rows|;
      assert rows[n - 2] == rows[n - 1] == MAX_HEIGHT;
      SplitLast(rows);
      SplitLast(rows[..n - 1]);
    }
  }

  lemma TwiceAtTheEnd(rows: seq<uint64>)
    requires Ascending(rows) && multiset(rows)[MAX_HEIGHT] > 1
    ensures |rows| >= 2 && rows[|rows| - 1] == rows[|rows| - 2] == MAX_HEIGHT
  {
    LargestIsLast(rows);
    var t := rows[..|rows| - 1];
    SplitLast(rows);
    assert MAX_HEIGHT in multiset(t);
    LargestIsLast(t);
  }

  lemma LargestIsLast(rows: seq<uint64>)
    requires Ascending(rows) && MAX_HEIGHT in multiset(rows)
    ensures rows != [] && rows[|rows| - 1] == MAX_HEIGHT
  {
    assert MAX_HEIGHT in multiset(rows);
    var i :| 0 <= i < |rows| && rows[i] == MAX_HEIGHT;
  }

  // ---------------------------------------------------------------- gaps and head range together

  /** Every height from the lowest recorded one to the head is recorded, in a gap, or in the head range, and only one
      of the three; nothing below the lowest recorded height is ever proposed. */
  lemma GapsAndHeadPartition(log: seq<uint64>, latest: uint64, h: uint64)
    requires log != [] && multiset(log)[MAX_HEIGHT] <= 1
    ensures
      var gap, above := InGaps(FindGaps(log), h), (exists r :: r in HeadRange(LastIndexed(log), latest) && r.Has(h));
      && (gap || above ==> h !in log) && !(gap && above)
      && ((exists a :: a in log && a <= h) && h <= latest ==> h in log || gap || above)
      && ((forall a :: a in log ==> h < a) ==> !gap && !above)
  {
    GapExactness(log);
    LastIsMax(log);
    var last := LastIndexed(log);
    assert ExactGaps(log);
    if last < latest {
      assert Range(last + 1, latest) in HeadRange(last, latest);
    }
    assert (exists r :: r in HeadRange(last, latest) && r.Has(h)) <==> last < h <= latest;
    if h <= last {
      assert exists b :: b in log && h <= b;
    }
  }
}
