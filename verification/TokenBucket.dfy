/** The RPC client's token bucket: the methods one caller sees, and the same code
    under any interleaving of callers, where test and update are separate atomic steps. */
module TokenBucket {
  const SECOND := 1_000_000_000

  // ---------------------------------------------------------------- one caller

  class Bucket {
    var tokens: int
    var lastRefill: int
    const maxTokens: int
    const refillEvery: int

    /** When the bucket was created, and how many tokens have been handed out since. */
    ghost const epoch: int
    ghost var granted: int

    ghost predicate Valid()
      reads this
    {
      && 0 <= tokens <= maxTokens && 1 <= maxTokens && 0 <= refillEvery && epoch <= lastRefill
      // every token beyond the initial burst was paid for by a full refill interval
      && (granted + tokens - maxTokens) * refillEvery <= lastRefill - epoch
    }

    constructor (rps: int, burst: int, now: int)
      ensures Valid() && granted == 0 && epoch == lastRefill == now && tokens == maxTokens
      ensures maxTokens == (if burst <= 0 then 40 else burst)
      ensures refillEvery == SECOND / (if rps <= 0 then 20 else rps)
    {
      var perSecond := if rps <= 0 then 20 else rps;
      maxTokens := if burst <= 0 then 40 else burst;
      refillEvery := SECOND / perSecond;
      tokens := if burst <= 0 then 40 else burst;
      lastRefill := now;
      epoch := now;
      granted := 0;
    }

    predicate Due(now: int)
      reads this
    {
      now - lastRefill >= refillEvery
    }

    method Refill(now: int)
      requires Valid()
      modifies this`tokens, this`lastRefill
      ensures Valid()
      ensures tokens == if old(Due(now)) && old(tokens) < maxTokens then old(tokens) + 1 else old(tokens)
      ensures lastRefill == if old(Due(now)) then now else old(lastRefill)
    {
      var last := lastRefill;
      if now - last >= refillEvery {
        if tokens < maxTokens {
          OneMoreInterval(granted + tokens - maxTokens, refillEvery);
          tokens := tokens + 1;
        }
        lastRefill := now;
      }
    }

    /** Blocks until a token is there; clock gives the readings of its attempts. It succeeds within them
        exactly when a token was left or some reading is a refill interval past the last refill. */
    method Acquire(clock: seq<int>) returns (ok: bool)
      requires Valid() && clock != []
      modifies this`tokens, this`lastRefill, this`granted
      ensures Valid()
      ensures granted == old(granted) + if ok then 1 else 0
      ensures ok <==> old(tokens) > 0 || exists k :: 0 <= k < |clock| && clock[k] - old(lastRefill) >= refillEvery
      ensures refillEvery > 0 ==> granted <= maxTokens + (lastRefill - epoch) / refillEvery
    {
      var i := 0;
      while i < |clock|
        invariant Valid() && 0 <= i <= |clock| && granted == old(granted) && lastRefill >= old(lastRefill)
        invariant i > 0 ==> tokens == old(tokens) == 0 && lastRefill == old(lastRefill)
        invariant i == 0 ==> tokens == old(tokens) && lastRefill == old(lastRefill)
        invariant forall k :: 0 <= k < i ==> clock[k] - old(lastRefill) < refillEvery
      {
        Refill(clock[i]);
        if tokens > 0 {
          tokens := tokens - 1;
          granted := granted + 1;
          RateBound(granted, tokens, maxTokens, lastRefill - epoch, refillEvery);
          return true;
        }
        i := i + 1;
      }
      RateBound(granted, tokens, maxTokens, lastRefill - epoch, refillEvery);
      return false;
    }
  }

  lemma OneMoreInterval(k: int, every: int)
    ensures (k + 1) * every == k * every + every
  {
  }

  lemma RateBound(granted: int, tokens: int, maxTokens: int, elapsed: int, every: int)
    requires tokens >= 0 && elapsed >= 0 && every >= 0 && (granted + tokens - maxTokens) * every <= elapsed
    ensures every > 0 ==> granted <= maxTokens + elapsed / every
  {
    if every > 0 {
      var k := granted + tokens - maxTokens;
      var q := elapsed / every;
      assert elapsed < (q + 1) * every by {
        OneMoreInterval(q, every);
        assert elapsed == q * every + elapsed % every;
      }
      NotBelow(q + 1, k, every);
    }
  }

  lemma NotBelow(a: int, b: int, every: int)
    requires every > 0
    ensures a <= b ==> a * every <= b * every
  {
  }

  // ---------------------------------------------------------------- any number of callers

  /** Where a caller is between two atomic accesses. */
  datatype Pc =
    | Start
    | HasLast(last: int)
    | Refilling(now: int)
    | Adding(now: int)
    | Storing(now: int)
    | Checking
    | Taking

  datatype State = State(tokens: int, lastRefill: int, pcs: seq<Pc>)

  datatype Limits = Limits(maxTokens: int, refillEvery: int) {
    ghost predicate Valid() {
      maxTokens >= 1 && refillEvery >= 0
    }
  }

  /** The next atomic step of one caller; clock is what it reads if the step reads the time. */
  datatype Step = Step(caller: nat, clock: int)

  function Moved(s: State, i: nat, pc: Pc): State
    requires i < |s.pcs|
  {
    s.(pcs := s.pcs[i := pc])
  }

  function Apply(m: Limits, s: State, a: Step): State
    requires a.caller < |s.pcs|
  {
    var i := a.caller;
    match s.pcs[i]
    case Start => Moved(s, i, HasLast(s.lastRefill))
    case HasLast(last) => Moved(s, i, if a.clock - last >= m.refillEvery then Refilling(a.clock) else Checking)
    case Refilling(now) => Moved(s, i, if s.tokens < m.maxTokens then Adding(now) else Storing(now))
    case Adding(now) => Moved(s, i, Storing(now)).(tokens := s.tokens + 1)
    case Storing(now) => Moved(s, i, Checking).(lastRefill := now)
    case Checking => Moved(s, i, if s.tokens > 0 then Taking else Start)
    case Taking => Moved(s, i, Start).(tokens := s.tokens - 1)
  }

  function Run(m: Limits, s: State, steps: seq<Step>): State
    requires forall a :: a in steps ==> a.caller < |s.pcs|
    decreases |steps|
  {
    if steps == [] then s else Run(m, Apply(m, s, steps[0]), steps[1..])
  }

  function Fresh(m: Limits, n: nat, now: int): State {
    State(m.maxTokens, now, seq(n, _ => Start))
  }

  predicate IsAdding(p: Pc) { p.Adding? }
  predicate IsTaking(p: Pc) { p.Taking? }

  function Count(pcs: seq<Pc>, p: Pc -> bool): (n: nat)
    ensures n <= |pcs|
  {
    if pcs == [] then 0 else Count(pcs[..|pcs| - 1], p) + if p(pcs[|pcs| - 1]) then 1 else 0
  }

  lemma {:induction false} CountMoved(pcs: seq<Pc>, i: nat, pc: Pc, p: Pc -> bool)
    requires i < |pcs|
    ensures Count(pcs[i := pc], p) == Count(pcs, p) - (if p(pcs[i]) then 1 else 0) + (if p(pc) then 1 else 0)
  {
    if i == |pcs| - 1 {
      assert pcs[i := pc][..i] == pcs[..i];
    } else {
      CountMoved(pcs[..|pcs| - 1], i, pc, p);
      assert pcs[i := pc][..|pcs| - 1] == pcs[..|pcs| - 1][i := pc];
    }
  }

  lemma {:induction false} CountNone(pcs: seq<Pc>, p: Pc -> bool)
    requires forall i :: 0 <= i < |pcs| ==> !p(pcs[i])
    ensures Count(pcs, p) == 0
  {
    if pcs != [] {
      CountNone(pcs[..|pcs| - 1], p);
    }
  }

  /** A test that let a caller through may be acted on late, by every caller at once, and no later than that. */
  ghost predicate Bounds(m: Limits, s: State) {
    && s.tokens - Count(s.pcs, IsTaking) >= 1 - |s.pcs|
    && s.tokens + Count(s.pcs, IsAdding) <= m.maxTokens + |s.pcs| - 1
  }

  lemma BoundsStep(m: Limits, s: State, a: Step)
    requires m.Valid() && a.caller < |s.pcs| && Bounds(m, s)
    ensures Bounds(m, Apply(m, s, a))
  {
    var s' := Apply(m, s, a);
    CountMoved(s.pcs, a.caller, s'.pcs[a.caller], IsTaking);
    CountMoved(s.pcs, a.caller, s'.pcs[a.caller], IsAdding);
  }

  lemma {:induction false} BoundsAlways(m: Limits, s: State, steps: seq<Step>)
    requires m.Valid() && (forall a :: a in steps ==> a.caller < |s.pcs|) && Bounds(m, s)
    ensures Bounds(m, Run(m, s, steps)) && |Run(m, s, steps).pcs| == |s.pcs|
    decreases |steps|
  {
    if steps != [] {
      BoundsStep(m, s, steps[0]);
      BoundsAlways(m, Apply(m, s, steps[0]), steps[1..]);
    }
  }

  /** Undisturbed, one caller's steps do what the refill of a bucket does, and bring it to its test: the counter and the
      time of the last refill move exactly when a full interval has passed. */
  lemma AloneIsRefill(m: Limits, s: State, i: nat, clock: int) returns (steps: seq<Step>)
    requires i < |s.pcs| && s.pcs[i] == Start
    ensures |steps| <= 5 && forall a :: a in steps ==> a.caller == i && a.clock == clock
    ensures
      var t, due := Run(m, s, steps), clock - s.lastRefill >= m.refillEvery;
      && t.pcs == s.pcs[i := Checking]
      && t.tokens == (if due && s.tokens < m.maxTokens then s.tokens + 1 else s.tokens)
      && t.lastRefill == (if due then clock else s.lastRefill)
  {
    var step := Step(i, clock);
    var s1 := Apply(m, s, step);
    var s2 := Apply(m, s1, step);
    if clock - s.lastRefill < m.refillEvery {
      steps := [step, step];
      assert steps[1..] == [step] && steps[1..][1..] == [];
      assert Run(m, s2, []) == s2 && Run(m, s1, [step]) == s2;
    } else {
      var s3 := Apply(m, s2, step);
      var s4 := Apply(m, s3, step);
      if s.tokens < m.maxTokens {
        var s5 := Apply(m, s4, step);
        steps := [step, step, step, step, step];
        RunFive(m, s, step);
        assert s5.pcs == s.pcs[i := Checking];
      } else {
        steps := [step, step, step, step];
        RunFour(m, s, step);
      }
    }
  }

  lemma RunFour(m: Limits, s: State, step: Step)
    requires step.caller < |s.pcs|
    ensures Run(m, s, [step, step, step, step])
            == Apply(m, Apply(m, Apply(m, Apply(m, s, step), step), step), step)
  {
    var s1 := Apply(m, s, step);
    var s2 := Apply(m, s1, step);
    var s3 := Apply(m, s2, step);
    var four, three, two := [step, step, step, step], [step, step, step], [step, step];
    assert four[1..] == three && three[1..] == two && two[1..] == [step] && [step][1..] == [];
    assert Run(m, s3, [step]) == Apply(m, s3, step);
    assert Run(m, s2, two) == Run(m, s3, [step]);
    assert Run(m, s1, three) == Run(m, s2, two);
  }

  lemma RunFive(m: Limits, s: State, step: Step)
    requires step.caller < |s.pcs|
    ensures Run(m, s, [step, step, step, step, step])
            == Apply(m, Apply(m, Apply(m, Apply(m, Apply(m, s, step), step), step), step), step)
  {
    RunFour(m, Apply(m, s, step), step);
    assert [step, step, step, step, step][1..] == [step, step, step, step];
  }

  /** The time of the last refill only ever becomes a reading of the caller that stores it. */
  lemma StampMoves(m: Limits, s: State, a: Step)
    requires a.caller < |s.pcs|
    ensures Apply(m, s, a).lastRefill == if s.pcs[a.caller].Storing? then s.pcs[a.caller].now else s.lastRefill
    ensures Apply(m, s, a).tokens - s.tokens
            == if s.pcs[a.caller].Adding? then 1 else if s.pcs[a.caller].Taking? then -1 else 0
  {
  }

  /** Under every interleaving of n callers the counter stays between 1 - n and maxTokens + n - 1. */
  lemma TokensStayInRange(m: Limits, n: nat, now: int, steps: seq<Step>)
    requires m.Valid() && n >= 1 && forall a :: a in steps ==> a.caller < n
    ensures 1 - n <= Run(m, Fresh(m, n, now), steps).tokens <= m.maxTokens + n - 1
  {
    CountNone(Fresh(m, n, now).pcs, IsTaking);
    CountNone(Fresh(m, n, now).pcs, IsAdding);
    BoundsAlways(m, Fresh(m, n, now), steps);
  }

  // ---------------------------------------------------------------- both bounds are attained

  ghost predicate Reaches(m: Limits, s: State, t: State) {
    exists steps :: Leads(m, s, steps, t)
  }

  ghost predicate Leads(m: Limits, s: State, steps: seq<Step>, t: State) {
    (forall a :: a in steps ==> a.caller < |s.pcs|) && Run(m, s, steps) == t
  }

  lemma {:induction false} RunConcat(m: Limits, s: State, first: seq<Step>, second: seq<Step>)
    requires forall a :: a in first + second ==> a.caller < |s.pcs|
    ensures forall a :: a in second ==> a.caller < |Run(m, s, first).pcs|
    ensures Run(m, s, first + second) == Run(m, Run(m, s, first), second)
    decreases |first|
  {
    if first == [] {
      assert first + second == second;
    } else {
      assert (first + second)[1..] == first[1..] + second;
      RunConcat(m, Apply(m, s, first[0]), first[1..], second);
    }
  }

  lemma ReachesTrans(m: Limits, s: State, t: State, u: State)
    requires Reaches(m, s, t) && Reaches(m, t, u) && |s.pcs| == |t.pcs|
    ensures Reaches(m, s, u)
  {
    var first :| Leads(m, s, first, t);
    var second :| Leads(m, t, second, u);
    RunConcat(m, s, first, second);
    assert Leads(m, s, first + second, u);
  }

  lemma ReachesStep(m: Limits, s: State, i: nat, clock: int)
    requires i < |s.pcs|
    ensures Reaches(m, s, Apply(m, s, Step(i, clock)))
  {
    assert Leads(m, s, [Step(i, clock)], Apply(m, s, Step(i, clock)));
  }

  lemma ReachesSelf(m: Limits, s: State)
    ensures Reaches(m, s, s)
  {
    assert Leads(m, s, [], s);
  }

  /** The first j of n callers are at one place, the others at another. */
  function Split(tokens: int, lastRefill: int, n: nat, j: nat, first: Pc, others: Pc): State {
    State(tokens, lastRefill, seq(n, i => if i < j then first else others))
  }

  /** Caller i starts an attempt and reads the time. */
  lemma ReadsClock(m: Limits, s: State, i: nat, clock: int)
    requires i < |s.pcs| && s.pcs[i] == Start
    ensures Reaches(m, s, Moved(s, i, if clock - s.lastRefill >= m.refillEvery then Refilling(clock) else Checking))
  {
    var s1 := Moved(s, i, HasLast(s.lastRefill));
    ReachesStep(m, s, i, clock);
    ReachesStep(m, s1, i, clock);
    var end := Moved(s, i, if clock - s.lastRefill >= m.refillEvery then Refilling(clock) else Checking);
    assert Apply(m, s1, Step(i, clock)) == end;
    ReachesTrans(m, s, s1, end);
  }

  /** With a token left and no refill due, caller i passes the test. */
  lemma PassesTest(m: Limits, s: State, i: nat)
    requires m.Valid() && m.refillEvery >= 1 && i < |s.pcs| && s.pcs[i] == Start && s.tokens > 0
    ensures Reaches(m, s, Moved(s, i, Taking))
  {
    var s1 := Moved(s, i, Checking);
    ReadsClock(m, s, i, s.lastRefill);
    ReachesStep(m, s1, i, 0);
    assert Apply(m, s1, Step(i, 0)) == Moved(s, i, Taking);
    ReachesTrans(m, s, s1, Moved(s, i, Taking));
  }

  /** With room in the bucket and a refill due, caller i decides to add a token. */
  lemma DecidesToAdd(m: Limits, s: State, i: nat)
    requires m.Valid() && i < |s.pcs| && s.pcs[i] == Start && s.tokens < m.maxTokens
    ensures Reaches(m, s, Moved(s, i, Adding(s.lastRefill + m.refillEvery)))
  {
    var now := s.lastRefill + m.refillEvery;
    var s1 := Moved(s, i, Refilling(now));
    ReadsClock(m, s, i, now);
    ReachesStep(m, s1, i, 0);
    assert Apply(m, s1, Step(i, 0)) == Moved(s, i, Adding(now));
    ReachesTrans(m, s, s1, Moved(s, i, Adding(now)));
  }

  /** One caller alone empties the bucket down to k. */
  lemma {:induction false} Drains(m: Limits, n: nat, now: int, from: int, k: int)
    requires m.Valid() && m.refillEvery >= 1 && n >= 1 && 0 <= k <= from
    ensures Reaches(m, Split(from, now, n, 0, Start, Start), Split(k, now, n, 0, Start, Start))
    decreases from - k
  {
    var s := Split(from, now, n, 0, Start, Start);
    if from == k {
      ReachesSelf(m, s);
    } else {
      var s1 := Moved(s, 0, Taking);
      var s2 := Split(from - 1, now, n, 0, Start, Start);
      PassesTest(m, s, 0);
      ReachesStep(m, s1, 0, 0);
      assert Apply(m, s1, Step(0, 0)) == s2;
      ReachesTrans(m, s, s1, s2);
      Drains(m, n, now, from - 1, k);
      ReachesTrans(m, s, s2, Split(k, now, n, 0, Start, Start));
    }
  }

  /** Every caller passes the test on the same last token. */
  lemma {:induction false} AllPass(m: Limits, n: nat, now: int, j: nat)
    requires m.Valid() && m.refillEvery >= 1 && j <= n
    ensures Reaches(m, Split(1, now, n, 0, Taking, Start), Split(1, now, n, j, Taking, Start))
  {
    var s := Split(1, now, n, 0, Taking, Start);
    if j == 0 {
      ReachesSelf(m, s);
    } else {
      var t := Split(1, now, n, j - 1, Taking, Start);
      AllPass(m, n, now, j - 1);
      PassesTest(m, t, j - 1);
      assert Moved(t, j - 1, Taking) == Split(1, now, n, j, Taking, Start);
      ReachesTrans(m, s, t, Split(1, now, n, j, Taking, Start));
    }
  }

  lemma {:induction false} AllTake(m: Limits, n: nat, now: int, j: nat)
    requires j <= n
    ensures Reaches(m, Split(1, now, n, 0, Start, Taking), Split(1 - j, now, n, j, Start, Taking))
  {
    var s := Split(1, now, n, 0, Start, Taking);
    if j == 0 {
      ReachesSelf(m, s);
    } else {
      var t := Split(1 - (j - 1), now, n, j - 1, Start, Taking);
      AllTake(m, n, now, j - 1);
      ReachesStep(m, t, j - 1, 0);
      assert Apply(m, t, Step(j - 1, 0)) == Split(1 - j, now, n, j, Start, Taking);
      ReachesTrans(m, s, t, Split(1 - j, now, n, j, Start, Taking));
    }
  }

  /** Every caller sees the same free place in the bucket. */
  lemma {:induction false} AllDecide(m: Limits, n: nat, now: int, j: nat)
    requires m.Valid() && j <= n
    ensures
      var pc := Adding(now + m.refillEvery);
      Reaches(m, Split(m.maxTokens - 1, now, n, 0, pc, Start), Split(m.maxTokens - 1, now, n, j, pc, Start))
  {
    var pc := Adding(now + m.refillEvery);
    var s := Split(m.maxTokens - 1, now, n, 0, pc, Start);
    if j == 0 {
      ReachesSelf(m, s);
    } else {
      var t := Split(m.maxTokens - 1, now, n, j - 1, pc, Start);
      AllDecide(m, n, now, j - 1);
      DecidesToAdd(m, t, j - 1);
      assert Moved(t, j - 1, pc) == Split(m.maxTokens - 1, now, n, j, pc, Start);
      ReachesTrans(m, s, t, Split(m.maxTokens - 1, now, n, j, pc, Start));
    }
  }

  lemma {:induction false} AllAdd(m: Limits, n: nat, now: int, j: nat)
    requires j <= n
    ensures
      var pc := Adding(now + m.refillEvery);
      Reaches(m, Split(m.maxTokens - 1, now, n, 0, Storing(pc.now), pc),
              Split(m.maxTokens - 1 + j, now, n, j, Storing(pc.now), pc))
  {
    var pc := Adding(now + m.refillEvery);
    var s := Split(m.maxTokens - 1, now, n, 0, Storing(pc.now), pc);
    if j == 0 {
      ReachesSelf(m, s);
    } else {
      var t := Split(m.maxTokens - 1 + (j - 1), now, n, j - 1, Storing(pc.now), pc);
      var u := Split(m.maxTokens - 1 + j, now, n, j, Storing(pc.now), pc);
      AllAdd(m, n, now, j - 1);
      ReachesStep(m, t, j - 1, 0);
      assert Apply(m, t, Step(j - 1, 0)) == u;
      ReachesTrans(m, s, t, u);
    }
  }

  /** For any number of callers, some interleaving drives the counter down to 1 - n and some other up to maxTokens + n - 1. */
  lemma BoundsAttained(m: Limits, n: nat, now: int)
    requires m.Valid() && m.refillEvery >= 1 && n >= 1
    ensures exists t :: Reaches(m, Fresh(m, n, now), t) && t.tokens == 1 - n
    ensures exists t :: Reaches(m, Fresh(m, n, now), t) && t.tokens == m.maxTokens + n - 1
  {
    AttainsLow(m, n, now);
    AttainsHigh(m, n, now);
  }

  lemma AttainsLow(m: Limits, n: nat, now: int)
    requires m.Valid() && m.refillEvery >= 1 && n >= 1
    ensures exists t :: Reaches(m, Fresh(m, n, now), t) && t.tokens == 1 - n
  {
    var s := Fresh(m, n, now);
    var s1, s2 := Split(1, now, n, 0, Start, Start), Split(1, now, n, n, Taking, Start);
    assert s == Split(m.maxTokens, now, n, 0, Start, Start);
    Drains(m, n, now, m.maxTokens, 1);
    assert s1 == Split(1, now, n, 0, Taking, Start);
    AllPass(m, n, now, n);
    ReachesTrans(m, s, s1, s2);
    assert s2 == Split(1, now, n, 0, Start, Taking);
    AllTake(m, n, now, n);
    ReachesTrans(m, s, s2, Split(1 - n, now, n, n, Start, Taking));
  }

  lemma AttainsHigh(m: Limits, n: nat, now: int)
    requires m.Valid() && m.refillEvery >= 1 && n >= 1
    ensures exists t :: Reaches(m, Fresh(m, n, now), t) && t.tokens == m.maxTokens + n - 1
  {
    var s := Fresh(m, n, now);
    var pc, k := Adding(now + m.refillEvery), m.maxTokens - 1;
    var s1, s2 := Split(k, now, n, 0, Start, Start), Split(k, now, n, n, pc, Start);
    assert s == Split(m.maxTokens, now, n, 0, Start, Start);
    Drains(m, n, now, m.maxTokens, k);
    assert s1 == Split(k, now, n, 0, pc, Start);
    AllDecide(m, n, now, n);
    ReachesTrans(m, s, s1, s2);
    assert s2 == Split(k, now, n, 0, Storing(pc.now), pc);
    AllAdd(m, n, now, n);
    ReachesTrans(m, s, s2, Split(k + n, now, n, n, Storing(pc.now), pc));
  }
}
