/** The RPC client's circuit breaker, endpoint failover and parallel paging. */
module HttpClient {
  import opened Lists

  datatype Error =
    | NoEndpoints
    | Marshal
    | Request
    | Network
    | Server(code: nat)
    | Http(code: nat)
    | Decode
    | Close

  datatype Body = Undecodable | CloseFails | Clean

  /** What one attempt against an endpoint meets. */
  datatype Outcome = MarshalFails | RequestFails | NetworkFails | Response(status: nat, body: Body)

  /** What the client makes of it: the call ends, or the next endpoint is tried. */
  datatype Verdict = Success | Fatal(error: Error) | Retry(error: Error, noted: bool)

  function Judge(o: Outcome, wantsBody: bool): Verdict {
    match o
    case MarshalFails => Fatal(Marshal)
    case RequestFails => Fatal(Request)
    case NetworkFails => Retry(Network, true)
    case Response(status, body) =>
      if status >= 500 then Retry(Server(status), true)
      else if status >= 300 then Retry(Http(status), false)
      else if wantsBody && body.Undecodable? then Retry(Decode, false)
      else if body.CloseFails? then Fatal(Close)
      else Success
  }

  /** The failures a breaker counts: no response, or a server error. */
  predicate Counted(o: Outcome) {
    o.NetworkFails? || (o.Response? && o.status >= 500)
  }

  /** The last endpoint that was really tried, among the first n. */
  function LastTried(seenOpen: seq<bool>, n: nat): (last: Option<nat>)
    requires n <= |seenOpen|
    ensures last.Some? ==> last.value < n && !seenOpen[last.value]
  {
    if n == 0 then None else if !seenOpen[n - 1] then Some(n - 1) else LastTried(seenOpen, n - 1)
  }

  lemma {:induction false} LastTriedNone(seenOpen: seq<bool>, n: nat)
    requires n <= |seenOpen|
    ensures LastTried(seenOpen, n).None? <==> forall i :: 0 <= i < n ==> seenOpen[i]
  {
    if n > 0 {
      LastTriedNone(seenOpen, n - 1);
    }
  }

  lemma {:induction false} LastTriedPrefix(a: seq<bool>, b: seq<bool>, n: nat)
    requires n <= |a| && a <= b
    ensures LastTried(a, n) == LastTried(b, n)
  {
    if n > 0 {
      assert a[n - 1] == b[n - 1];
      LastTriedPrefix(a, b, n - 1);
    }
  }

  /** The answer of a call over n endpoints, given the breakers it found open and what the attempts would meet.
      Nothing is said about why a breaker was open, so this also covers breakers other callers change meanwhile. */
  ghost predicate Answers(seenOpen: seq<bool>, verdicts: seq<Verdict>, error: Option<Error>) {
    && |seenOpen| <= |verdicts|
    && (forall i :: 0 <= i < |seenOpen| - 1 ==> seenOpen[i] || verdicts[i].Retry?)
    && if verdicts == [] then error == Some(NoEndpoints)
       else
         match LastTried(seenOpen, |seenOpen|)
         case None => |seenOpen| == |verdicts| && error == None
         case Some(k) =>
           match verdicts[k]
           case Success => k == |seenOpen| - 1 && error == None
           case Fatal(e) => k == |seenOpen| - 1 && error == Some(e)
           case Retry(e, _) => |seenOpen| == |verdicts| && error == Some(e)
  }

  /** No attempt has ended the call yet, and error is that of the last attempt. */
  ghost predicate Continues(seenOpen: seq<bool>, verdicts: seq<Verdict>, error: Option<Error>) {
    && |seenOpen| <= |verdicts|
    && (forall i :: 0 <= i < |seenOpen| ==> seenOpen[i] || verdicts[i].Retry?)
    && match LastTried(seenOpen, |seenOpen|)
       case None => error == None
       case Some(k) => verdicts[k].Retry? && error == Some(verdicts[k].error)
  }

  lemma NextEndpoint(seenOpen: seq<bool>, verdicts: seq<Verdict>, error: Option<Error>, open: bool)
    requires Continues(seenOpen, verdicts, error) && |seenOpen| < |verdicts|
    ensures
      var verdict, seen := verdicts[|seenOpen|], seenOpen + [open];
      if open then Continues(seen, verdicts, error)
      else match verdict
           case Success => Answers(seen, verdicts, None)
           case Fatal(e) => Answers(seen, verdicts, Some(e))
           case Retry(e, _) => Continues(seen, verdicts, Some(e))
  {
    LastTriedPrefix(seenOpen, seenOpen + [open], |seenOpen|);
  }

  function Verdicts(outcomes: seq<Outcome>, wantsBody: bool): seq<Verdict> {
    seq(|outcomes|, i requires 0 <= i < |outcomes| => Judge(outcomes[i], wantsBody))
  }

  /** The failure count of an endpoint and the time until which it is skipped, if it is. */
  datatype Breaker = Breaker(failures: nat, openUntil: Option<int>) {
    predicate Skips(now: int) {
      openUntil.Some? && now <= openUntil.value
    }

    /** The count an attempt starts from: once its cooldown has passed an open breaker starts again at zero. */
    function Restarted(): nat {
      if openUntil.Some? then 0 else failures
    }
  }

  const CLOSED := Breaker(0, None)

  /** One access to a breaker under the client's lock: the test before an attempt, or the note of a failure. */
  datatype Access = Look(ep: string, now: int) | Note(ep: string, now: int)

  function Accessed(b: Breaker, a: Access, threshold: int, cooldown: int): Breaker {
    match a
    case Look(_, now) => if b.Skips(now) then b else Breaker(b.Restarted(), None)
    case Note(_, now) => Breaker(b.failures + 1, if b.failures + 1 >= threshold then Some(now + cooldown) else None)
  }

  /** The breaker of an endpoint after some accesses of any callers. */
  function Replay(b: Breaker, ep: string, accesses: seq<Access>, threshold: int, cooldown: int): Breaker {
    if accesses == [] then b
    else
      var last, rest := accesses[|accesses| - 1], Replay(b, ep, accesses[..|accesses| - 1], threshold, cooldown);
      if last.ep == ep then Accessed(rest, last, threshold, cooldown) else rest
  }

  lemma {:induction false} ReplayConcat(
    b: Breaker, ep: string, x: seq<Access>, y: seq<Access>, threshold: int, cooldown: int)
    ensures Replay(b, ep, x + y, threshold, cooldown)
            == Replay(Replay(b, ep, x, threshold, cooldown), ep, y, threshold, cooldown)
  {
    if y == [] {
      assert x + y == x;
    } else {
      assert (x + y)[..|x + y| - 1] == x + y[..|y| - 1];
      ReplayConcat(b, ep, x, y[..|y| - 1], threshold, cooldown);
    }
  }

  lemma ReplayOne(b: Breaker, ep: string, a: Access, threshold: int, cooldown: int)
    ensures Replay(b, ep, [a], threshold, cooldown) == if a.ep == ep then Accessed(b, a, threshold, cooldown) else b
  {
    assert [a][..0] == [];
  }

  lemma ReplaySnoc(b: Breaker, ep: string, accesses: seq<Access>, a: Access, threshold: int, cooldown: int)
    ensures
      var was := Replay(b, ep, accesses, threshold, cooldown);
      Replay(b, ep, accesses + [a], threshold, cooldown)
      == if a.ep == ep then Accessed(was, a, threshold, cooldown) else was
  {
    assert (accesses + [a])[..|accesses|] == accesses;
  }

  /** A call: outcome i is what endpoint i would answer, before(i) and after(i) are the clock readings around its
      attempt, and looks(i) and notes(i) what other callers do to the breakers before it is tested and before a failure
      is noted. */
  datatype Call = Call(
    outcomes: seq<Outcome>, wantsBody: bool, before: nat -> int, after: nat -> int,
    looks: nat -> seq<Access>, notes: nat -> seq<Access>)
  {
    /** No other caller does anything in between. */
    ghost predicate Alone() {
      forall i :: looks(i) == [] && notes(i) == []
    }
  }

  /** All accesses during the turn of endpoint i. */
  function Turn(call: Call, endpoints: seq<string>, i: nat, open: bool): seq<Access>
    requires i < |endpoints| == |call.outcomes|
  {
    call.looks(i) + [Look(endpoints[i], call.before(i))]
    + if !open && Counted(call.outcomes[i]) then call.notes(i) + [Note(endpoints[i], call.after(i))] else []
  }

  /** All accesses while a call looks at its first endpoints and finds these breakers open. */
  function History(call: Call, endpoints: seq<string>, seenOpen: seq<bool>): seq<Access>
    requires |seenOpen| <= |endpoints| == |call.outcomes|
  {
    if seenOpen == [] then []
    else
      var i := |seenOpen| - 1;
      History(call, endpoints, seenOpen[..i]) + Turn(call, endpoints, i, seenOpen[i])
  }

  lemma HistorySnoc(call: Call, endpoints: seq<string>, seenOpen: seq<bool>, open: bool)
    requires |seenOpen| < |endpoints| == |call.outcomes|
    ensures History(call, endpoints, seenOpen + [open])
            == History(call, endpoints, seenOpen) + Turn(call, endpoints, |seenOpen|, open)
  {
    assert (seenOpen + [open])[..|seenOpen|] == seenOpen;
  }

  /** What a call alone does to the breaker of an endpoint: nothing if it skips it, else at most one more failure. */
  ghost predicate Visited(was: Breaker, now: Breaker, open: bool, outcome: Outcome, clock: int) {
    && (open <==> was.Skips(clock))
    && (open ==> now == was)
    && (!open ==>
          now.failures
          == was.Restarted() + if outcome.NetworkFails? || (outcome.Response? && outcome.status >= 500) then 1 else 0)
  }

  class Client {
    const endpoints: seq<string>
    const threshold: int
    const cooldown: int
    var failures: map<string, nat>
    var openUntil: map<string, int>

    /** Every access to the breakers so far, by any caller. */
    ghost var history: seq<Access>

    function Failures(ep: string): nat
      reads this`failures
    {
      if ep in failures then failures[ep] else 0
    }

    function BreakerOf(ep: string): Breaker
      reads this`failures, this`openUntil
    {
      Breaker(Failures(ep), Get(openUntil, ep))
    }

    ghost function Replayed(accesses: seq<Access>, ep: string): Breaker {
      Replay(CLOSED, ep, accesses, threshold, cooldown)
    }

    lemma ReplayedSnoc(accesses: seq<Access>, a: Access)
      ensures forall ep :: Replayed(accesses + [a], ep)
                           == if a.ep == ep then Accessed(Replayed(accesses, ep), a, threshold, cooldown)
                              else Replayed(accesses, ep)
    {
      forall ep: string
        ensures Replayed(accesses + [a], ep)
                == if a.ep == ep then Accessed(Replayed(accesses, ep), a, threshold, cooldown)
                   else Replayed(accesses, ep)
      {
        ReplaySnoc(CLOSED, ep, accesses, a, threshold, cooldown);
      }
    }

    /** How a call that started after the past accesses finds the breaker of endpoint i, after its turns so far. */
    ghost predicate FoundOpen(past: seq<Access>, call: Call, i: nat, seenOpen: seq<bool>)
      requires i < |endpoints| == |call.outcomes| && |seenOpen| <= |endpoints|
    {
      Replayed(past + History(call, endpoints, seenOpen) + call.looks(i), endpoints[i]).Skips(call.before(i))
    }

    /** A call saw each breaker as it was at its turn. */
    ghost predicate SawTruly(past: seq<Access>, call: Call, seenOpen: seq<bool>)
      requires |seenOpen| <= |endpoints| == |call.outcomes|
    {
      forall i :: 0 <= i < |seenOpen| ==> (seenOpen[i] <==> FoundOpen(past, call, i, seenOpen[..i]))
    }

    lemma SawOneMore(past: seq<Access>, call: Call, seenOpen: seq<bool>, open: bool)
      requires |seenOpen| < |endpoints| == |call.outcomes|
      requires SawTruly(past, call, seenOpen) && (open <==> FoundOpen(past, call, |seenOpen|, seenOpen))
      ensures SawTruly(past, call, seenOpen + [open])
    {
      var seen := seenOpen + [open];
      forall i | 0 <= i < |seen| ensures seen[i] <==> FoundOpen(past, call, i, seen[..i]) {
        if i < |seenOpen| {
          assert seen[..i] == seenOpen[..i];
        } else {
          assert seen[..i] == seenOpen;
        }
      }
    }

    lemma HistoryOneMore(past: seq<Access>, call: Call, seenOpen: seq<bool>, open: bool)
      requires |seenOpen| < |endpoints| == |call.outcomes|
      ensures past + History(call, endpoints, seenOpen) + Turn(call, endpoints, |seenOpen|, open)
              == past + History(call, endpoints, seenOpen + [open])
    {
      HistorySnoc(call, endpoints, seenOpen, open);
    }

    /** Breakers are what the accesses made of them, and an endpoint has a breaker entry exactly while its failure
        count is at the threshold. */
    ghost predicate Valid()
      reads this
    {
      && threshold >= 1
      && (forall i, j :: 0 <= i < j < |endpoints| ==> endpoints[i] != endpoints[j])
      && (forall ep :: ep in openUntil <==> Failures(ep) >= threshold)
      && (forall ep :: BreakerOf(ep) == Replayed(history, ep))
    }

    constructor (configured: seq<string>, breakerFailures: int, breakerCooldown: int)
      ensures Valid() && failures == map[] && openUntil == map[] && history == []
      ensures threshold == (if breakerFailures <= 0 then 3 else breakerFailures)
      ensures cooldown == (if breakerCooldown <= 0 then 5_000_000_000 else breakerCooldown)
      ensures endpoints == Deduped(configured)
      ensures forall ep :: ep in endpoints <==> exists c :: c in configured && TrimSlashes(c) == ep
    {
      var kept := Dedup(configured);
      endpoints := kept;
      threshold := if breakerFailures <= 0 then 3 else breakerFailures;
      cooldown := if breakerCooldown <= 0 then 5_000_000_000 else breakerCooldown;
      failures, openUntil, history := map[], map[], [];
      new;
      DedupDistinct(configured);
    }

    method IsOpen(ep: string, now: int) returns (open: bool)
      requires Valid()
      modifies this`failures, this`openUntil, this`history
      ensures Valid() && history == old(history) + [Look(ep, now)]
      ensures open <==> old(BreakerOf(ep)).Skips(now)
      ensures forall other :: other != ep || open ==> BreakerOf(other) == old(BreakerOf(other))
      ensures !open ==> BreakerOf(ep) == Breaker(old(BreakerOf(ep)).Restarted(), None)
    {
      ReplayedSnoc(history, Look(ep, now));
      history := history + [Look(ep, now)];
      if ep !in openUntil {
        return false;
      }
      if now > openUntil[ep] {
        openUntil := openUntil - {ep};
        failures := failures[ep := 0];
        return false;
      }
      return true;
    }

    method NoteFailure(ep: string, now: int)
      requires Valid()
      modifies this`failures, this`openUntil, this`history
      ensures Valid() && history == old(history) + [Note(ep, now)]
      ensures
        var count := old(Failures(ep)) + 1;
        BreakerOf(ep) == Breaker(count, if count >= threshold then Some(now + cooldown) else None)
      ensures forall other :: other != ep ==> BreakerOf(other) == old(BreakerOf(other))
    {
      ReplayedSnoc(history, Note(ep, now));
      history := history + [Note(ep, now)];
      failures := failures[ep := Failures(ep) + 1];
      if failures[ep] >= threshold {
        openUntil := openUntil[ep := now + cooldown];
      }
    }

    /** What other callers do to the breakers, each access under the lock. */
    method Interfere(accesses: seq<Access>)
      requires Valid()
      modifies this`failures, this`openUntil, this`history
      ensures Valid() && history == old(history) + accesses
    {
      for i := 0 to |accesses|
        invariant Valid() && history == old(history) + accesses[..i]
      {
        assert accesses[..i + 1] == accesses[..i] + [accesses[i]];
        match accesses[i] {
          case Look(ep, now) =>
            var _ := IsOpen(ep, now);
          case Note(ep, now) =>
            NoteFailure(ep, now);
        }
      }
      assert accesses[..|accesses|] == accesses;
    }

    /** The test before an attempt at endpoint i. */
    method Test(call: Call, i: nat) returns (open: bool)
      requires Valid() && i < |endpoints| == |call.outcomes|
      modifies this`failures, this`openUntil, this`history
      ensures Valid() && history == old(history) + (call.looks(i) + [Look(endpoints[i], call.before(i))])
      ensures open <==> Replayed(old(history) + call.looks(i), endpoints[i]).Skips(call.before(i))
    {
      Interfere(call.looks(i));
      assert BreakerOf(endpoints[i]) == Replayed(old(history) + call.looks(i), endpoints[i]);
      open := IsOpen(endpoints[i], call.before(i));
    }

    /** One endpoint's turn: it is skipped while open, and a failure that counts is noted. */
    method Visit(call: Call, i: nat) returns (open: bool)
      requires Valid() && i < |endpoints| == |call.outcomes|
      modifies this`failures, this`openUntil, this`history
      ensures Valid() && history == old(history) + Turn(call, endpoints, i, open)
      ensures open <==> Replayed(old(history) + call.looks(i), endpoints[i]).Skips(call.before(i))
    {
      open := Test(call, i);
      var verdict := Judge(call.outcomes[i], call.wantsBody);
      if !open && verdict.Retry? && verdict.noted {
        Interfere(call.notes(i));
        NoteFailure(endpoints[i], call.after(i));
      }
    }

    /** One call, with whatever other callers do meanwhile. Besides the error (None for Go's nil), the method returns
        which of the endpoints it looked at it found open: in order, each at most once. */
    method DoJSON(call: Call) returns (error: Option<Error>, seenOpen: seq<bool>)
      requires Valid() && |call.outcomes| == |endpoints|
      modifies this`failures, this`openUntil, this`history
      ensures Valid() && |seenOpen| <= |endpoints|
      ensures Answers(seenOpen, Verdicts(call.outcomes, call.wantsBody), error)
      ensures history == old(history) + History(call, endpoints, seenOpen)
      ensures SawTruly(old(history), call, seenOpen)
      ensures call.Alone() ==> forall k :: 0 <= k < |endpoints| ==>
                if k < |seenOpen|
                then Visited(old(BreakerOf(endpoints[k])), BreakerOf(endpoints[k]),
                             seenOpen[k], call.outcomes[k], call.before(k))
                else BreakerOf(endpoints[k]) == old(BreakerOf(endpoints[k]))
    {
      var verdicts := Verdicts(call.outcomes, call.wantsBody);
      seenOpen := [];
      error := if endpoints == [] then Some(NoEndpoints) else None;
      var ended := endpoints == [];
      while |seenOpen| < |endpoints| && !ended
        invariant Valid() && |seenOpen| <= |endpoints|
        invariant if ended then Answers(seenOpen, verdicts, error) else Continues(seenOpen, verdicts, error)
        invariant history == old(history) + History(call, endpoints, seenOpen)
        invariant SawTruly(old(history), call, seenOpen)
        decreases |endpoints| - |seenOpen|, !ended
      {
        var i := |seenOpen|;
        var open := Visit(call, i);
        NextEndpoint(seenOpen, verdicts, error, open);
        HistoryOneMore(old(history), call, seenOpen, open);
        SawOneMore(old(history), call, seenOpen, open);
        seenOpen := seenOpen + [open];
        if !open {
          error := if verdicts[i].Success? then None else Some(verdicts[i].error);
          ended := !verdicts[i].Retry?;
        }
      }
      AloneVisits(old(history), call, seenOpen);
    }

    /** Without other callers a call touches the breaker of each endpoint it looks at once, and no other breaker. */
    lemma AloneVisits(past: seq<Access>, call: Call, seenOpen: seq<bool>)
      requires |call.outcomes| == |endpoints| && |seenOpen| <= |endpoints|
      requires forall i, j :: 0 <= i < j < |endpoints| ==> endpoints[i] != endpoints[j]
      requires SawTruly(past, call, seenOpen)
      ensures call.Alone() ==> forall k :: 0 <= k < |endpoints| ==>
                var was := Replayed(past, endpoints[k]);
                var now := Replayed(past + History(call, endpoints, seenOpen), endpoints[k]);
                if k < |seenOpen| then Visited(was, now, seenOpen[k], call.outcomes[k], call.before(k)) else now == was
    {
      if call.Alone() {
        forall k | 0 <= k < |endpoints|
          ensures
            var was := Replayed(past, endpoints[k]);
            var now := Replayed(past + History(call, endpoints, seenOpen), endpoints[k]);
            if k < |seenOpen| then Visited(was, now, seenOpen[k], call.outcomes[k], call.before(k)) else now == was
        {
          ReplayConcat(CLOSED, endpoints[k], past, History(call, endpoints, seenOpen), threshold, cooldown);
          if k < |seenOpen| {
            var first := History(call, endpoints, seenOpen[..k]) + call.looks(k);
            assert past + History(call, endpoints, seenOpen[..k]) + call.looks(k) == past + first;
            ReplayConcat(CLOSED, endpoints[k], past, first, threshold, cooldown);
          }
          AloneVisitsOnce(call, endpoints, seenOpen, k, Replayed(past, endpoints[k]), threshold, cooldown);
        }
      }
    }
  }

  lemma {:induction false} AloneVisitsOnce(
    call: Call, endpoints: seq<string>, seenOpen: seq<bool>, k: nat, was: Breaker, threshold: int, cooldown: int)
    requires k < |endpoints| == |call.outcomes| && |seenOpen| <= |endpoints| && call.Alone()
    requires forall i, j :: 0 <= i < j < |endpoints| ==> endpoints[i] != endpoints[j]
    requires k < |seenOpen| ==>
               (seenOpen[k] <==>
                  var seen := History(call, endpoints, seenOpen[..k]) + call.looks(k);
                  Replay(was, endpoints[k], seen, threshold, cooldown).Skips(call.before(k)))
    ensures
      var now := Replay(was, endpoints[k], History(call, endpoints, seenOpen), threshold, cooldown);
      if k < |seenOpen| then Visited(was, now, seenOpen[k], call.outcomes[k], call.before(k)) else now == was
    decreases |seenOpen|
  {
    if seenOpen != [] {
      var i := |seenOpen| - 1;
      var before := seenOpen[..i];
      assert k < i ==> before[..k] == seenOpen[..k];
      AloneVisitsOnce(call, endpoints, before, k, was, threshold, cooldown);
      var past := History(call, endpoints, before);
      assert past + call.looks(k) == past;
      AloneTurn(call, endpoints, i, k, seenOpen[i], Replay(was, endpoints[k], past, threshold, cooldown),
                threshold, cooldown);
      ReplayConcat(was, endpoints[k], past, Turn(call, endpoints, i, seenOpen[i]), threshold, cooldown);
    }
  }

  lemma AloneTurn(
    call: Call, endpoints: seq<string>, i: nat, k: nat, open: bool, was: Breaker, threshold: int, cooldown: int)
    requires i < |endpoints| && k < |endpoints| == |call.outcomes| && call.Alone()
    requires forall i, j :: 0 <= i < j < |endpoints| ==> endpoints[i] != endpoints[j]
    requires i == k ==> (open <==> was.Skips(call.before(k)))
    ensures
      var now := Replay(was, endpoints[k], Turn(call, endpoints, i, open), threshold, cooldown);
      if i == k then Visited(was, now, open, call.outcomes[k], call.before(k)) else now == was
  {
    var look, note := [Look(endpoints[i], call.before(i))], [Note(endpoints[i], call.after(i))];
    ReplayOne(was, endpoints[k], look[0], threshold, cooldown);
    assert call.looks(i) + look == look && call.notes(i) + note == note;
    if !open && Counted(call.outcomes[i]) {
      assert Turn(call, endpoints, i, open) == look + note;
      ReplayConcat(was, endpoints[k], look, note, threshold, cooldown);
      ReplayOne(Replay(was, endpoints[k], look, threshold, cooldown), endpoints[k], note[0], threshold, cooldown);
    } else {
      assert Turn(call, endpoints, i, open) == look;
    }
  }

  function TrimSlashes(s: string): (r: string)
    ensures r <= s && (r == "" || r[|r| - 1] != '/')
    ensures forall i :: |r| <= i < |s| ==> s[i] == '/'
  {
    if s != "" && s[|s| - 1] == '/' then TrimSlashes(s[..|s| - 1]) else s
  }

  /** The trimmed strings, each at its first occurrence. */
  function Deduped(s: seq<string>): seq<string> {
    if s == [] then []
    else
      var rest, e := Deduped(s[..|s| - 1]), TrimSlashes(s[|s| - 1]);
      if e in rest then rest else rest + [e]
  }

  lemma {:induction false} DedupDistinct(s: seq<string>)
    ensures forall i, j :: 0 <= i < j < |Deduped(s)| ==> Deduped(s)[i] != Deduped(s)[j]
    ensures forall ep :: ep in Deduped(s) <==> exists c :: c in s && TrimSlashes(c) == ep
  {
    if s != [] {
      var t, e := s[..|s| - 1], s[|s| - 1];
      DedupDistinct(t);
      assert s == t + [e];
      forall ep ensures ep in Deduped(s) <==> exists c :: c in s && TrimSlashes(c) == ep {
        if ep == TrimSlashes(e) {
          assert e in s;
        } else if ep in Deduped(t) {
          var c :| c in t && TrimSlashes(c) == ep;
          assert c in s;
        }
      }
    }
  }

  method Dedup(s: seq<string>) returns (out: seq<string>)
    ensures out == Deduped(s)
  {
    var seen := {};
    out := [];
    for i := 0 to |s|
      invariant out == Deduped(s[..i])
      invariant forall e :: e in seen <==> e in out
    {
      assert s[..i + 1][..i] == s[..i];
      var e := TrimSlashes(s[i]);
      if e !in seen {
        seen := seen + {e};
        out := out + [e];
      }
    }
    assert s[..|s|] == s;
  }

  // ---------------------------------------------------------------- when a call answers nil

  lemma {:induction false} LastTriedIs(seenOpen: seq<bool>, n: nat, k: nat)
    requires k < n <= |seenOpen| && !seenOpen[k] && forall i :: k < i < n ==> seenOpen[i]
    ensures LastTried(seenOpen, n) == Some(k)
  {
    if k < n - 1 {
      LastTriedIs(seenOpen, n - 1, k);
    }
  }

  /** A response below 300 whose body, if wanted, decodes and which closes cleanly. */
  predicate CleanResponse(o: Outcome, wantsBody: bool) {
    o.Response? && o.status < 300 && o.body != CloseFails && (wantsBody ==> o.body != Undecodable)
  }

  /** Nil means that the last endpoint looked at was tried and answered cleanly, or that there are endpoints and
      every one of them was skipped. */
  lemma NilExactly(outcomes: seq<Outcome>, wantsBody: bool, seenOpen: seq<bool>, error: Option<Error>)
    requires Answers(seenOpen, Verdicts(outcomes, wantsBody), error)
    ensures error == None <==>
      || (seenOpen != [] && !seenOpen[|seenOpen| - 1] && CleanResponse(outcomes[|seenOpen| - 1], wantsBody))
      || (outcomes != [] && |seenOpen| == |outcomes| && forall i :: 0 <= i < |seenOpen| ==> seenOpen[i])
  {
    LastTriedNone(seenOpen, |seenOpen|);
    if seenOpen != [] && !seenOpen[|seenOpen| - 1] {
      LastTriedIs(seenOpen, |seenOpen|, |seenOpen| - 1);
    }
  }

  /** The attempt against an endpoint sends the call on to the next one. */
  ghost predicate FailsOver(o: Outcome, wantsBody: bool) {
    o.NetworkFails? || (o.Response? && (o.status >= 300 || (wantsBody && o.body == Undecodable)))
  }

  /** A call goes on past an attempt exactly when it got no response, a status of 300 or more, or a wanted body that does
      not decode; and it answers with the error of its last attempt. */
  lemma EndsExactly(outcomes: seq<Outcome>, wantsBody: bool, seenOpen: seq<bool>, error: Option<Error>, i: nat)
    requires Answers(seenOpen, Verdicts(outcomes, wantsBody), error) && i < |seenOpen| && !seenOpen[i]
    ensures !FailsOver(outcomes[i], wantsBody) ==> i == |seenOpen| - 1
    ensures FailsOver(outcomes[i], wantsBody) && i == |seenOpen| - 1 ==> |seenOpen| == |outcomes|
    ensures (forall j :: i < j < |seenOpen| ==> seenOpen[j]) ==>
              error == match outcomes[i]
                       case MarshalFails => Some(Marshal)
                       case RequestFails => Some(Request)
                       case NetworkFails => Some(Network)
                       case Response(status, body) =>
                         if status >= 500 then Some(Server(status))
                         else if status >= 300 then Some(Http(status))
                         else if wantsBody && body == Undecodable then Some(Decode)
                         else if body == CloseFails then Some(Close)
                         else None
  {
    LastTriedNone(seenOpen, |seenOpen|);
    if forall j :: i < j < |seenOpen| ==> seenOpen[j] {
      LastTriedIs(seenOpen, |seenOpen|, i);
    }
  }

  // ---------------------------------------------------------------- paging

  /** What a page request leaves in its response struct: nothing at all when every endpoint was skipped. */
  datatype Reply<T> = Failed(error: Error) | Untouched | Page(items: seq<T>, totalPages: int)

  function Items<T>(r: Reply<T>): seq<T> {
    if r.Page? then r.items else []
  }

  function TotalPages<T>(r: Reply<T>): int {
    if r.Page? then r.totalPages else 0
  }

  function ItemsOf<T>(replies: int -> Reply<T>): int -> multiset<T> {
    (p: int) => multiset(Items(replies(p)))
  }

  /** The items of some pages together. */
  function Gathered<T>(page: int -> multiset<T>, pages: seq<int>): multiset<T> {
    if pages == [] then multiset{} else Gathered(page, pages[..|pages| - 1]) + page(pages[|pages| - 1])
  }

  /** Pages 2 to n, each once. */
  function PagesTo(n: int): (pages: seq<int>)
    ensures forall p :: multiset(pages)[p] == if 2 <= p <= n then 1 else 0
  {
    if n < 2 then [] else PagesTo(n - 1) + [n]
  }

  ghost predicate AnyFailed<T>(replies: int -> Reply<T>, pages: seq<int>) {
    exists p :: p in pages && replies(p).Failed?
  }

  /** Appends the pages as they arrive; the first failure ends the call. */
  method AppendPages<T>(replies: int -> Reply<T>, arrivals: seq<int>, first: seq<T>)
    returns (error: Option<Error>, all: seq<T>)
    ensures error.Some? <==> AnyFailed(replies, arrivals)
    ensures error == None ==> multiset(all) == multiset(first) + Gathered(ItemsOf(replies), arrivals)
  {
    all := first;
    for i := 0 to |arrivals|
      invariant multiset(all) == multiset(first) + Gathered(ItemsOf(replies), arrivals[..i])
      invariant !AnyFailed(replies, arrivals[..i])
    {
      var p := arrivals[i];
      var r := replies(p);
      if r.Failed? {
        assert p in arrivals && replies(p).Failed?;
        return Some(r.error), [];
      }
      assert arrivals[..i + 1] == arrivals[..i] + [p];
      GatheredSnoc(ItemsOf(replies), arrivals[..i], p);
      ItemsAdded(all, Items(r));
      all := all + Items(r);
    }
    assert arrivals[..|arrivals|] == arrivals;
    return None, all;
  }

  lemma ItemsAdded<T>(all: seq<T>, items: seq<T>)
    ensures multiset(all + items) == multiset(all) + multiset(items)
  {
  }

  /** Pages 2 to the last are requested in parallel and appended in the order they arrive. */
  method ListPaged<T>(replies: int -> Reply<T>, arrivals: seq<int>) returns (error: Option<Error>, all: seq<T>)
    requires multiset(arrivals) == multiset(PagesTo(TotalPages(replies(1))))
    ensures error.Some? <==> replies(1).Failed? || AnyFailed(replies, arrivals)
    ensures error == None ==>
              multiset(all) == multiset(Items(replies(1))) + Gathered(ItemsOf(replies), PagesTo(TotalPages(replies(1))))
  {
    var first := replies(1);
    if first.Failed? {
      return Some(first.error), [];
    }
    if TotalPages(first) <= 1 {
      assert |multiset(arrivals)| == 0;
      return None, Items(first);
    }
    error, all := AppendPages(replies, arrivals, Items(first));
    GatheredAnyOrder(ItemsOf(replies), arrivals, PagesTo(TotalPages(first)));
  }

  /** The list of a paged call has exactly the items of its pages: those of page 1 and of pages 2 to the last. */
  lemma ListedExactly<T(!new)>(replies: int -> Reply<T>, all: seq<T>, x: T)
    requires replies(1).Page?
    requires multiset(all)
             == multiset(Items(replies(1))) + Gathered(ItemsOf(replies), PagesTo(TotalPages(replies(1))))
    ensures x in all <==>
              x in replies(1).items
              || exists p :: 2 <= p <= replies(1).totalPages && replies(p).Page? && x in replies(p).items
  {
    var pages := PagesTo(TotalPages(replies(1)));
    InGathered(ItemsOf(replies), pages, x);
    assert forall p :: p in pages <==> p in multiset(pages);
    assert x in all <==> x in multiset(all);
    assert forall p :: x in ItemsOf(replies)(p) <==> x in Items(replies(p));
  }

  lemma {:induction false} InGathered<T(!new)>(page: int -> multiset<T>, pages: seq<int>, x: T)
    ensures x in Gathered(page, pages) <==> exists p :: p in pages && x in page(p)
  {
    if pages != [] {
      var t, p := pages[..|pages| - 1], pages[|pages| - 1];
      InGathered(page, t, x);
      assert forall q :: q in pages <==> q in t || q == p;
    }
  }

  lemma GatheredSnoc<T>(page: int -> multiset<T>, pages: seq<int>, p: int)
    ensures Gathered(page, pages + [p]) == Gathered(page, pages) + page(p)
  {
    assert (pages + [p])[..|pages|] == pages;
  }

  lemma {:induction false} GatheredConcat<T>(page: int -> multiset<T>, a: seq<int>, b: seq<int>)
    ensures Gathered(page, a + b) == Gathered(page, a) + Gathered(page, b)
  {
    if b == [] {
      assert a + b == a;
    } else {
      var t, p := b[..|b| - 1], b[|b| - 1];
      GatheredConcat(page, a, t);
      assert a + b == (a + t) + [p];
      assert b == t + [p];
      GatheredSnoc(page, a + t, p);
      GatheredSnoc(page, t, p);
      Regroup(Gathered(page, a), Gathered(page, t), page(p));
    }
  }

  lemma Regroup<T>(a: multiset<T>, b: multiset<T>, c: multiset<T>)
    ensures (a + b) + c == a + (b + c) && (a + c) + b == (a + b) + c
  {
  }

  /** The order of arrival does not change what is gathered. */
  lemma {:induction false} GatheredAnyOrder<T>(page: int -> multiset<T>, a: seq<int>, b: seq<int>)
    requires multiset(a) == multiset(b)
    ensures Gathered(page, a) == Gathered(page, b)
  {
    if a == [] {
      assert |multiset(b)| == 0;
    } else {
      var t, x := a[..|a| - 1], a[|a| - 1];
      assert a == t + [x];
      assert x in multiset(b);
      var i :| 0 <= i < |b| && b[i] == x;
      var front, back := b[..i], b[i + 1..];
      assert b == front + [x] + back;
      assert multiset(front + back) + multiset{x} == multiset(t) + multiset{x};
      SameWithout(multiset(front + back), multiset(t), x);
      GatheredAnyOrder(page, t, front + back);
      GatheredConcat(page, front, back);
      GatheredConcat(page, front + [x], back);
      GatheredSnoc(page, front, x);
      Regroup(Gathered(page, front), Gathered(page, back), page(x));
    }
  }

  lemma SameWithout<T>(a: multiset<T>, b: multiset<T>, x: T)
    requires a + multiset{x} == b + multiset{x}
    ensures a == b
  {
    assert a == (a + multiset{x}) - multiset{x};
    assert b == (b + multiset{x}) - multiset{x};
  }
}
