/**
 * The per-key token bucket: one bucket per id, kept in a map that is emptied whole when a new id
 * would push it past its size limit.
 */
module RateLimiter {
  import opened Numbers
  import opened Options

  datatype Config = Config(capacity: real, refillPerSecond: real, maxEntries: Option<nat>)

  datatype Bucket = Bucket(tokens: real, updatedMs: real)

  datatype Call = Call(id: string, atMs: real)

  type Buckets = map<string, Bucket>

  /** What one call does: the map it leaves, whether it is admitted, whether it emptied the map. */
  datatype Verdict = Verdict(buckets: Buckets, admitted: bool, cleared: bool)

  function Earned(cfg: Config, ms: real): real { ms / 1000.0 * cfg.refillPerSecond }

  /** What an id could spend at a given time; an id without a bucket has a full one coming. */
  function Available(cfg: Config, bucket: Option<Bucket>, atMs: real): real {
    if bucket.None? then cfg.capacity
    else MinReal(cfg.capacity, bucket.value.tokens + Earned(cfg, MaxReal(0.0, atMs - bucket.value.updatedMs)))
  }

  function Held(buckets: Buckets, id: string): Option<Bucket> { if id in buckets then Some(buckets[id]) else None }

  function Clears(cfg: Config, buckets: Buckets, id: string): bool {
    id !in buckets && cfg.maxEntries.Some? && |buckets| >= cfg.maxEntries.value
  }

  function Hit(cfg: Config, bucket: Option<Bucket>, atMs: real): (Bucket, bool) {
    var refilled := Available(cfg, bucket, atMs);
    if refilled < 1.0 then (Bucket(refilled, atMs), false) else (Bucket(refilled - 1.0, atMs), true)
  }

  function Consume(cfg: Config, buckets: Buckets, call: Call): Verdict {
    var cleared := Clears(cfg, buckets, call.id);
    var (bucket, admitted) := Hit(cfg, Held(buckets, call.id), call.atMs);
    Verdict((if cleared then map[] else buckets)[call.id := bucket], admitted, cleared)
  }

  class Limiter {
    const cfg: Config
    var buckets: Buckets

    constructor (cfg: Config)
      ensures this.cfg == cfg && buckets == map[]
    {
      this.cfg := cfg;
      buckets := map[];
    }

    /** Take one token for `id` if it has one. */
    method TryConsume(id: string, nowMs: real) returns (allowed: bool)
      modifies this`buckets
      ensures var verdict := Consume(cfg, old(buckets), Call(id, nowMs));
              buckets == verdict.buckets && allowed == verdict.admitted
    {
      var existing := Held(buckets, id);
      if existing.None? && cfg.maxEntries.Some? && |buckets| >= cfg.maxEntries.value {
        buckets := map[];
      }
      var bucket := if existing.Some? then existing.value else Bucket(cfg.capacity, nowMs);
      var elapsedSeconds := MaxReal(0.0, (nowMs - bucket.updatedMs) / 1000.0);
      var refilled := MinReal(cfg.capacity, bucket.tokens + elapsedSeconds * cfg.refillPerSecond);
      assert refilled == Available(cfg, existing, nowMs);
      if refilled < 1.0 {
        buckets := buckets[id := Bucket(refilled, nowMs)];
        return false;
      }
      buckets := buckets[id := Bucket(refilled - 1.0, nowMs)];
      return true;
    }
  }

  // --- Runs --------------------------------------------------------------------------------------

  function After(cfg: Config, calls: seq<Call>): Buckets
    decreases |calls|, 1
  {
    if calls == [] then map[] else Last(cfg, calls).buckets
  }

  /** What the last call of a run did. */
  function Last(cfg: Config, calls: seq<Call>): Verdict
    requires calls != []
    decreases |calls|, 0
  {
    Consume(cfg, After(cfg, calls[..|calls| - 1]), calls[|calls| - 1])
  }

  /** How many calls of `id` a run admits from its call number `first` on. */
  function Admitted(cfg: Config, calls: seq<Call>, id: string, first: nat): nat {
    if |calls| <= first then 0
    else Admitted(cfg, calls[..|calls| - 1], id, first)
         + (if calls[|calls| - 1].id == id && Last(cfg, calls).admitted then 1 else 0)
  }

  /** How often a run empties the map from that call on. */
  function Cleared(cfg: Config, calls: seq<Call>, first: nat): nat {
    if |calls| <= first then 0
    else Cleared(cfg, calls[..|calls| - 1], first) + (if Last(cfg, calls).cleared then 1 else 0)
  }

  /** How far the clock moves forward from that call on; where it steps back it moves nothing. */
  function Forward(calls: seq<Call>, first: nat): real {
    if |calls| <= first + 1 then 0.0
    else Forward(calls[..|calls| - 1], first) + MaxReal(0.0, calls[|calls| - 1].atMs - calls[|calls| - 2].atMs)
  }

  /** The bursts and the refill a stretch of `ms` may hand out when it sees `clears` clears. */
  function Allowance(cfg: Config, clears: nat, ms: real): real {
    (1 + clears) as real * cfg.capacity + Earned(cfg, ms)
  }

  ghost predicate Sane(cfg: Config) { cfg.capacity >= 0.0 && cfg.refillPerSecond >= 0.0 }

  lemma EarnedAdds(cfg: Config, a: real, b: real)
    ensures Earned(cfg, a) + Earned(cfg, b) == Earned(cfg, a + b)
    ensures Earned(cfg, 0.0) == 0.0
  {
  }

  lemma EarnedGrows(cfg: Config, a: real, b: real)
    requires Sane(cfg) && a <= b
    ensures Earned(cfg, a) <= Earned(cfg, b)
  {
    EarnedAdds(cfg, a, b - a);
    assert Earned(cfg, b - a) >= 0.0;
  }

  /** From one reading of the clock to another, a bucket gains at most what the move forward earns. */
  lemma AvailableGrows(cfg: Config, bucket: Option<Bucket>, t: real, u: real)
    requires Sane(cfg) && (bucket.Some? ==> bucket.value.tokens >= 0.0)
    ensures 0.0 <= Available(cfg, bucket, t) <= cfg.capacity
    ensures Available(cfg, bucket, u) <= Available(cfg, bucket, t) + Earned(cfg, MaxReal(0.0, u - t))
  {
    hide Earned;
    EarnedAdds(cfg, 0.0, 0.0);
    EarnedGrows(cfg, 0.0, MaxReal(0.0, u - t));
    if bucket.Some? {
      var since := MaxReal(0.0, t - bucket.value.updatedMs);
      EarnedGrows(cfg, 0.0, since);
      EarnedAdds(cfg, since, MaxReal(0.0, u - t));
      EarnedGrows(cfg, MaxReal(0.0, u - bucket.value.updatedMs), since + MaxReal(0.0, u - t));
    }
  }

  /** No bucket is ever overdrawn. */
  lemma {:induction false} BucketsSound(cfg: Config, calls: seq<Call>, id: string)
    requires Sane(cfg)
    ensures id in After(cfg, calls) ==> After(cfg, calls)[id].tokens >= 0.0
    decreases |calls|
  {
    if calls != [] {
      var front, call := calls[..|calls| - 1], calls[|calls| - 1];
      BucketsSound(cfg, front, id);
      AvailableGrows(cfg, Held(After(cfg, front), id), call.atMs, call.atMs);
    }
  }

  /** What one call admits comes out of what was available, or out of a clear. */
  lemma OneCall(cfg: Config, calls: seq<Call>, id: string)
    requires Sane(cfg) && calls != []
    ensures var front, call := calls[..|calls| - 1], calls[|calls| - 1];
            var before := Available(cfg, Held(After(cfg, front), id), call.atMs);
            var after := Available(cfg, Held(After(cfg, calls), id), call.atMs);
            var last := Last(cfg, calls);
            && 0.0 <= before <= cfg.capacity
            && after + (if call.id == id && last.admitted then 1.0 else 0.0) <= (if last.cleared then cfg.capacity else before)
  {
    var front, call := calls[..|calls| - 1], calls[|calls| - 1];
    BucketsSound(cfg, front, id);
    AvailableGrows(cfg, Held(After(cfg, front), id), call.atMs, call.atMs);
    EarnedAdds(cfg, 0.0, 0.0);
  }

  lemma AllowanceSteps(cfg: Config, clears: nat, ms: real, more: real)
    requires Sane(cfg)
    ensures Allowance(cfg, clears, ms) + Earned(cfg, more) == Allowance(cfg, clears, ms + more)
    ensures Allowance(cfg, clears + 1, ms) == Allowance(cfg, clears, ms) + cfg.capacity
    ensures Allowance(cfg, 0, 0.0) == cfg.capacity
  {
  }

  /** At any call of the stretch, what was admitted and what is still available fit its allowance. */
  lemma {:induction false} StretchPotential(cfg: Config, calls: seq<Call>, id: string, first: nat)
    requires Sane(cfg) && first < |calls|
    ensures Admitted(cfg, calls, id, first) as real + Available(cfg, Held(After(cfg, calls), id), calls[|calls| - 1].atMs)
              <= Allowance(cfg, Cleared(cfg, calls, first), Forward(calls, first))
    decreases |calls|
  {
    hide Available, Allowance, Last, After, Clears, Earned;
    var n := |calls| - 1;
    var front, t := calls[..n], calls[n].atMs;
    OneCall(cfg, calls, id);
    if n == first {
      AllowanceSteps(cfg, 0, 0.0, 0.0);
    } else {
      StretchPotential(cfg, front, id, first);
      var clears, moved := Cleared(cfg, front, first), MaxReal(0.0, t - front[n - 1].atMs);
      BucketsSound(cfg, front, id);
      AvailableGrows(cfg, Held(After(cfg, front), id), front[n - 1].atMs, t);
      AllowanceSteps(cfg, clears, Forward(front, first), moved);
      AllowanceSteps(cfg, clears, Forward(calls, first), 0.0);
      AvailableNotNegative(cfg, calls, id, first);
    }
  }

  lemma AvailableNotNegative(cfg: Config, calls: seq<Call>, id: string, first: nat)
    requires Sane(cfg) && first + 1 < |calls|
    ensures var front := calls[..|calls| - 1];
            Available(cfg, Held(After(cfg, front), id), front[|front| - 1].atMs) >= 0.0
  {
    var front := calls[..|calls| - 1];
    BucketsSound(cfg, front, id);
    AvailableGrows(cfg, Held(After(cfg, front), id), front[|front| - 1].atMs, front[|front| - 1].atMs);
  }

  /**
   * The token-bucket bound, whatever the clock does. From any call of a run on, one id is admitted at
   * most one full burst, one more per clear, and the refill of the time the clock moved forward. On a
   * clock that never steps back that is the time that passed.
   */
  lemma WindowBound(cfg: Config, calls: seq<Call>, id: string, first: nat)
    requires Sane(cfg) && first < |calls|
    ensures Admitted(cfg, calls, id, first) as real <= Allowance(cfg, Cleared(cfg, calls, first), Forward(calls, first))
    ensures ClockRuns(calls) ==> Forward(calls, first) == calls[|calls| - 1].atMs - calls[first].atMs
  {
    hide Available, Allowance, Forward, Admitted, Cleared;
    StretchPotential(cfg, calls, id, first);
    BucketsSound(cfg, calls, id);
    AvailableGrows(cfg, Held(After(cfg, calls), id), calls[|calls| - 1].atMs, calls[|calls| - 1].atMs);
    if ClockRuns(calls) { TimePassed(calls, first); }
  }

  ghost predicate ClockRuns(calls: seq<Call>) {
    forall i, j :: 0 <= i < j < |calls| ==> calls[i].atMs <= calls[j].atMs
  }

  lemma {:induction false} TimePassed(calls: seq<Call>, first: nat)
    requires ClockRuns(calls) && first < |calls|
    ensures Forward(calls, first) == calls[|calls| - 1].atMs - calls[first].atMs
    decreases |calls|
  {
    if first + 1 < |calls| { TimePassed(calls[..|calls| - 1], first); }
  }

  /** A clock that steps back and forth by one refill. */
  function Pendulum(id: string, n: nat): seq<Call> {
    if n == 0 then [Call(id, 1000.0)] else Pendulum(id, n - 1) + [Call(id, 0.0), Call(id, 1000.0)]
  }

  lemma OneMoreCall(cfg: Config, calls: seq<Call>, call: Call)
    ensures var longer, verdict := calls + [call], Consume(cfg, After(cfg, calls), call);
            && After(cfg, longer) == verdict.buckets
            && Admitted(cfg, longer, call.id, 0) == Admitted(cfg, calls, call.id, 0) + (if verdict.admitted then 1 else 0)
            && Cleared(cfg, longer, 0) == Cleared(cfg, calls, 0) + (if verdict.cleared then 1 else 0)
  {
    hide Consume;
    assert (calls + [call])[..|calls|] == calls;
  }

  lemma Swing(buckets: Buckets, id: string)
    requires Held(buckets, id) == Some(Bucket(0.0, 1000.0))
    ensures var cfg := Config(1.0, 1.0, None);
            var back := Consume(cfg, buckets, Call(id, 0.0));
            var forth := Consume(cfg, back.buckets, Call(id, 1000.0));
            && !back.admitted && !back.cleared && forth.admitted && !forth.cleared
            && Held(forth.buckets, id) == Some(Bucket(0.0, 1000.0))
  {
    var back := Consume(Config(1.0, 1.0, None), buckets, Call(id, 0.0));
    assert Held(back.buckets, id) == Some(Bucket(0.0, 0.0));
  }

  /** On such a clock a bucket of one token admits any number of calls within one second. */
  lemma {:induction false} BackwardClockCounterexample(id: string, n: nat)
    ensures var cfg, calls := Config(1.0, 1.0, None), Pendulum(id, n);
            && (forall call :: call in calls ==> 0.0 <= call.atMs <= 1000.0)
            && Admitted(cfg, calls, id, 0) == n + 1 && Cleared(cfg, calls, 0) == 0
            && Held(After(cfg, calls), id) == Some(Bucket(0.0, 1000.0))
  {
    hide Consume, After, Admitted, Cleared;
    var cfg := Config(1.0, 1.0, None);
    if n == 0 {
      NoCalls(cfg, id);
      OneMoreCall(cfg, [], Call(id, 1000.0));
      assert [] + [Call(id, 1000.0)] == Pendulum(id, 0);
      FirstCall(id);
    } else {
      BackwardClockCounterexample(id, n - 1);
      var prior := Pendulum(id, n - 1);
      OneMoreCall(cfg, prior, Call(id, 0.0));
      OneMoreCall(cfg, prior + [Call(id, 0.0)], Call(id, 1000.0));
      Swing(After(cfg, prior), id);
      assert Pendulum(id, n) == prior + [Call(id, 0.0)] + [Call(id, 1000.0)];
    }
  }

  lemma NoCalls(cfg: Config, id: string)
    ensures After(cfg, []) == map[] && Admitted(cfg, [], id, 0) == 0 && Cleared(cfg, [], 0) == 0
  {
  }

  lemma FirstCall(id: string)
    ensures var verdict := Consume(Config(1.0, 1.0, None), map[], Call(id, 1000.0));
            verdict.admitted && !verdict.cleared && Held(verdict.buckets, id) == Some(Bucket(0.0, 1000.0))
  {
  }

  // --- Exactly when a call is denied -----------------------------------------------------------------

  /** When `id` last called; 0 before its first call. */
  function LastAt(calls: seq<Call>, id: string): real {
    if calls == [] then 0.0
    else if calls[|calls| - 1].id == id then calls[|calls| - 1].atMs
    else LastAt(calls[..|calls| - 1], id)
  }

  /** How far the clock moves forward from one call of `id` to its next, from its call number `first` on. */
  function OwnForward(calls: seq<Call>, id: string, first: nat): real {
    if |calls| <= first + 1 then 0.0
    else
      var front, last := calls[..|calls| - 1], calls[|calls| - 1];
      OwnForward(front, id, first) + (if last.id == id then MaxReal(0.0, last.atMs - LastAt(front, id)) else 0.0)
  }

  /** What is left of a full bucket's tokens after the stretch that begins with call `first`. */
  function Left(cfg: Config, calls: seq<Call>, id: string, first: nat): real {
    cfg.capacity + Earned(cfg, OwnForward(calls, id, first)) - Admitted(cfg, calls, id, first) as real
  }

  /** A stretch of a run that begins with a call of `id` and has no clear behind that call. */
  ghost predicate Stretch(cfg: Config, calls: seq<Call>, id: string, first: nat) {
    first < |calls| && calls[first].id == id && Cleared(cfg, calls, first + 1) == 0
  }

  lemma StretchFront(cfg: Config, calls: seq<Call>, id: string, first: nat)
    requires Stretch(cfg, calls, id, first) && first + 1 < |calls|
    ensures Stretch(cfg, calls[..|calls| - 1], id, first) && !Last(cfg, calls).cleared
  {
    hide Last;
  }

  lemma NothingBefore(cfg: Config, calls: seq<Call>, id: string)
    requires calls != []
    ensures var n := |calls| - 1;
            && OwnForward(calls, id, n) == 0.0 && Cleared(cfg, calls, n + 1) == 0
            && Admitted(cfg, calls, id, n) == if calls[n].id == id && Last(cfg, calls).admitted then 1 else 0
  {
    hide Last;
  }

  /** What one more call does to what is left. */
  lemma LeftStep(cfg: Config, calls: seq<Call>, id: string, first: nat)
    requires first + 1 < |calls|
    ensures var front, last := calls[..|calls| - 1], calls[|calls| - 1];
            Left(cfg, calls, id, first) == Left(cfg, front, id, first)
              + (if last.id != id then 0.0
                 else Earned(cfg, MaxReal(0.0, last.atMs - LastAt(front, id))) - (if Last(cfg, calls).admitted then 1.0 else 0.0))
  {
    hide Last, Earned;
    var front, last := calls[..|calls| - 1], calls[|calls| - 1];
    EarnedAdds(cfg, OwnForward(front, id, first), MaxReal(0.0, last.atMs - LastAt(front, id)));
  }

  /** A bucket was last touched by its own id's last call. */
  lemma {:induction false} UpdatedAt(cfg: Config, calls: seq<Call>, id: string)
    ensures id in After(cfg, calls) ==> After(cfg, calls)[id].updatedMs == LastAt(calls, id)
    decreases |calls|
  {
    hide Available, Clears;
    if calls != [] { UpdatedAt(cfg, calls[..|calls| - 1], id); }
  }

  /** No stretch leaves fewer tokens than the bucket holds. */
  lemma {:induction false} TokensAtMost(cfg: Config, calls: seq<Call>, id: string, first: nat)
    requires Stretch(cfg, calls, id, first)
    ensures id in After(cfg, calls) && After(cfg, calls)[id].tokens <= Left(cfg, calls, id, first)
    decreases |calls|
  {
    hide Earned, Clears, Left, Stretch;
    EarnedAdds(cfg, 0.0, 0.0);
    LeftOf(cfg, calls, id, first);
    if first + 1 == |calls| {
      NothingBefore(cfg, calls, id);
    } else {
      var front := calls[..|calls| - 1];
      StretchFront(cfg, calls, id, first);
      TokensAtMost(cfg, front, id, first);
      LeftStep(cfg, calls, id, first);
      UpdatedAt(cfg, front, id);
    }
  }

  lemma LeftOf(cfg: Config, calls: seq<Call>, id: string, first: nat)
    ensures Stretch(cfg, calls, id, first) ==> first < |calls| && calls[first].id == id
    ensures Left(cfg, calls, id, first) == cfg.capacity + Earned(cfg, OwnForward(calls, id, first)) - Admitted(cfg, calls, id, first) as real
  {
  }

  /** And one leaves just what it holds: the one since the bucket was last full. */
  lemma {:induction false} TokensAreLeft(cfg: Config, calls: seq<Call>, id: string) returns (first: nat)
    requires id in After(cfg, calls)
    ensures Stretch(cfg, calls, id, first) && After(cfg, calls)[id].tokens == Left(cfg, calls, id, first)
    decreases |calls|
  {
    hide Earned, Clears, Left;
    EarnedAdds(cfg, 0.0, 0.0);
    var n := |calls| - 1;
    var front, call := calls[..n], calls[n];
    if call.id == id && Available(cfg, Held(After(cfg, front), id), call.atMs) == cfg.capacity {
      NothingBefore(cfg, calls, id);
      LeftOf(cfg, calls, id, n);
      return n;
    }
    first := TokensAreLeft(cfg, front, id);
    LeftStep(cfg, calls, id, first);
    UpdatedAt(cfg, front, id);
    assert !Last(cfg, calls).cleared by { hide Held; NotCleared(cfg, calls, id); }
  }

  lemma NotCleared(cfg: Config, calls: seq<Call>, id: string)
    requires calls != [] && id in After(cfg, calls[..|calls| - 1]) && id in After(cfg, calls)
    ensures !Last(cfg, calls).cleared
  {
  }

  /**
   * Some stretch of the run has admitted more than what a full bucket and the refill of the stretch, up to
   * the call that ends it, leave a whole token of. The stretch may be that call alone.
   */
  ghost predicate Spent(cfg: Config, calls: seq<Call>, id: string, first: nat)
    requires calls != []
  {
    && Stretch(cfg, calls, id, first)
    && Admitted(cfg, calls[..|calls| - 1], id, first) as real > cfg.capacity - 1.0 + Earned(cfg, OwnForward(calls, id, first))
  }

  /**
   * The bucket grants all it promises and no more, whatever the clock does: a call is denied if and only
   * if some stretch of its id's calls that ends with it, with no clear in between, has already admitted
   * more than one token less than the capacity plus what the clock's moves forward have earned since.
   */
  lemma DeniedExactly(cfg: Config, calls: seq<Call>)
    requires calls != []
    ensures var id := calls[|calls| - 1].id; !Last(cfg, calls).admitted <==> exists first: nat :: Spent(cfg, calls, id, first)
    ensures var id, now := calls[|calls| - 1].id, calls[|calls| - 1].atMs;
            ClockRuns(calls) ==>
              forall first: nat :: Stretch(cfg, calls, id, first) ==> OwnForward(calls, id, first) == now - calls[first].atMs
  {
    hide Left, Earned, Clears, Cleared;
    var n := |calls| - 1;
    var id := calls[n].id;
    if ClockRuns(calls) {
      forall first: nat | Stretch(cfg, calls, id, first) ensures OwnForward(calls, id, first) == calls[n].atMs - calls[first].atMs {
        LeftOf(cfg, calls, id, first);
        OwnTimePassed(calls, id, first);
      }
    }
    if !Last(cfg, calls).admitted {
      var first := TokensAreLeft(cfg, calls, id);
      LeftOf(cfg, calls, id, first);
      AdmittedBefore(cfg, calls, id, first);
      assert Spent(cfg, calls, id, first);
    }
    if first: nat :| Spent(cfg, calls, id, first) {
      TokensAtMost(cfg, calls, id, first);
      LeftOf(cfg, calls, id, first);
      AdmittedBefore(cfg, calls, id, first);
    }
  }

  lemma AdmittedBefore(cfg: Config, calls: seq<Call>, id: string, first: nat)
    requires first < |calls| && calls[|calls| - 1].id == id
    ensures Admitted(cfg, calls, id, first) == Admitted(cfg, calls[..|calls| - 1], id, first) + (if Last(cfg, calls).admitted then 1 else 0)
  {
    hide Last;
  }

  /** On a clock that never steps back, the moves between an id's calls add up to the time between the first and the last. */
  lemma {:induction false} OwnTimePassed(calls: seq<Call>, id: string, first: nat)
    requires ClockRuns(calls) && first < |calls| && calls[first].id == id
    ensures OwnForward(calls, id, first) == LastAt(calls, id) - calls[first].atMs
    decreases |calls|
  {
    if first + 1 < |calls| {
      OwnTimePassed(calls[..|calls| - 1], id, first);
      if calls[|calls| - 1].id == id { LastAtEarlier(calls[..|calls| - 1], id, first); }
    }
  }

  lemma {:induction false} LastAtEarlier(calls: seq<Call>, id: string, first: nat)
    requires first < |calls| && calls[first].id == id
    ensures exists i :: 0 <= i < |calls| && calls[i].atMs == LastAt(calls, id)
    decreases |calls|
  {
    if calls[|calls| - 1].id != id {
      LastAtEarlier(calls[..|calls| - 1], id, first);
      var i :| 0 <= i < |calls| - 1 && calls[..|calls| - 1][i].atMs == LastAt(calls, id);
      assert calls[i].atMs == LastAt(calls, id);
    }
  }

  function OwnCalls(calls: seq<Call>, id: string): nat {
    if calls == [] then 0 else OwnCalls(calls[..|calls| - 1], id) + (if calls[|calls| - 1].id == id then 1 else 0)
  }

  lemma {:induction false} AdmittedAtMostOwn(cfg: Config, calls: seq<Call>, id: string, first: nat)
    ensures Admitted(cfg, calls, id, first) <= OwnCalls(calls, id)
    decreases |calls|
  {
    hide Last;
    if calls != [] { AdmittedAtMostOwn(cfg, calls[..|calls| - 1], id, first); }
  }

  lemma {:induction false} ForwardNotNegative(calls: seq<Call>, id: string, first: nat)
    ensures OwnForward(calls, id, first) >= 0.0
    decreases |calls|
  {
    if |calls| > first + 1 { ForwardNotNegative(calls[..|calls| - 1], id, first); }
  }

  /** The burst is granted: an id's first calls are all admitted, as many as the capacity holds whole tokens. */
  lemma BurstGranted(cfg: Config, calls: seq<Call>)
    requires cfg.refillPerSecond >= 0.0 && calls != [] && OwnCalls(calls, calls[|calls| - 1].id) as real <= cfg.capacity
    ensures Last(cfg, calls).admitted
  {
    hide Earned, Stretch;
    var id, front := calls[|calls| - 1].id, calls[..|calls| - 1];
    DeniedExactly(cfg, calls);
    forall first: nat ensures !Spent(cfg, calls, id, first) {
      AdmittedAtMostOwn(cfg, front, id, first);
      ForwardNotNegative(calls, id, first);
      EarnsSomething(cfg, OwnForward(calls, id, first));
    }
  }

  lemma EarnsSomething(cfg: Config, ms: real)
    requires cfg.refillPerSecond >= 0.0 && ms >= 0.0
    ensures Earned(cfg, ms) >= 0.0
  {
  }

  // --- Fairness to the patient -------------------------------------------------------------------

  /** Any two calls of `id` are at least the time apart that refills one token. */
  ghost predicate Spaced(cfg: Config, calls: seq<Call>, id: string) {
    forall i, j :: 0 <= i < j < |calls| && calls[i].id == id && calls[j].id == id ==>
      Earned(cfg, calls[j].atMs - calls[i].atMs) >= 1.0
  }

  /** A bucket was last touched by one of its id's own calls, and is not overdrawn. */
  ghost predicate Touched(buckets: Buckets, calls: seq<Call>, id: string) {
    id in buckets ==>
      buckets[id].tokens >= 0.0 && exists i :: 0 <= i < |calls| && calls[i].id == id && calls[i].atMs == buckets[id].updatedMs
  }

  lemma OwnCall(cfg: Config, buckets: Buckets, calls: seq<Call>, call: Call)
    requires cfg.capacity >= 1.0 && cfg.refillPerSecond > 0.0
    requires Spaced(cfg, calls + [call], call.id) && Touched(buckets, calls, call.id)
    ensures var verdict := Consume(cfg, buckets, call);
            verdict.admitted && Touched(verdict.buckets, calls + [call], call.id)
  {
    hide Earned, Clears;
    var all := calls + [call];
    if call.id in buckets {
      var i :| 0 <= i < |calls| && calls[i].id == call.id && calls[i].atMs == buckets[call.id].updatedMs;
      assert all[i] == calls[i] && all[|calls|] == call && Earned(cfg, all[|calls|].atMs - all[i].atMs) >= 1.0;
      EarnedForward(cfg, call.atMs - calls[i].atMs);
    }
    assert all[|calls|] == call;
  }

  lemma OtherCall(cfg: Config, buckets: Buckets, calls: seq<Call>, call: Call, id: string)
    requires call.id != id && Touched(buckets, calls, id)
    ensures Touched(Consume(cfg, buckets, call).buckets, calls + [call], id)
  {
    hide Clears, Hit;
    if id in Consume(cfg, buckets, call).buckets {
      var i :| 0 <= i < |calls| && calls[i].id == id && calls[i].atMs == buckets[id].updatedMs;
      assert (calls + [call])[i] == calls[i];
    }
  }

  lemma {:induction false} SpacedBucket(cfg: Config, calls: seq<Call>, id: string)
    requires cfg.capacity >= 1.0 && Spaced(cfg, calls, id) && cfg.refillPerSecond > 0.0
    ensures Touched(After(cfg, calls), calls, id)
    ensures calls != [] && calls[|calls| - 1].id == id ==> Last(cfg, calls).admitted
    decreases |calls|
  {
    hide Earned, Consume, Touched;
    if calls == [] {
      NothingTouched(id);
    } else {
      var front, call := calls[..|calls| - 1], calls[|calls| - 1];
      SpacedBucket(cfg, front, id);
      assert front + [call] == calls;
      if call.id == id { OwnCall(cfg, After(cfg, front), front, call); } else { OtherCall(cfg, After(cfg, front), front, call, id); }
    }
  }

  lemma NothingTouched(id: string)
    ensures Touched(map[], [], id)
  {
  }

  lemma EarnedForward(cfg: Config, ms: real)
    requires cfg.refillPerSecond > 0.0 && Earned(cfg, ms) >= 1.0
    ensures ms > 0.0
  {
  }

  /** A caller who waits for one token's refill between calls is never denied, whatever others do. */
  lemma SpacedCallerAdmitted(cfg: Config, calls: seq<Call>, id: string, i: nat)
    requires cfg.capacity >= 1.0 && cfg.refillPerSecond > 0.0 && Spaced(cfg, calls, id)
    requires i < |calls| && calls[i].id == id
    ensures Last(cfg, calls[..i + 1]).admitted
  {
    SpacedBucket(cfg, calls[..i + 1], id);
  }

  // --- Isolation ---------------------------------------------------------------------------------

  /** All that one id's bucket ever sees: its own calls, and other ids' calls that empty the map. */
  datatype Seen = Own(atMs: real) | Emptied

  function Projection(cfg: Config, calls: seq<Call>, id: string): seq<Seen> {
    if calls == [] then []
    else
      var call := calls[|calls| - 1];
      Projection(cfg, calls[..|calls| - 1], id)
      + (if call.id == id then [Own(call.atMs)] else if Last(cfg, calls).cleared then [Emptied] else [])
  }

  /** A limiter for one id. */
  function Solo(cfg: Config, seen: seq<Seen>): Option<Bucket>
    decreases |seen|, 1
  {
    if seen == [] then None
    else if seen[|seen| - 1].Emptied? then None
    else Some(SoloLast(cfg, seen).0)
  }

  function SoloLast(cfg: Config, seen: seq<Seen>): (Bucket, bool)
    requires seen != [] && seen[|seen| - 1].Own?
    decreases |seen|, 0
  {
    Hit(cfg, Solo(cfg, seen[..|seen| - 1]), seen[|seen| - 1].atMs)
  }

  /** The shared map is one private limiter per id: no id's calls reach another's bucket except by a clear. */
  lemma {:induction false} IsolationRefinesSolo(cfg: Config, calls: seq<Call>, id: string)
    ensures Held(After(cfg, calls), id) == Solo(cfg, Projection(cfg, calls, id))
    ensures calls != [] && calls[|calls| - 1].id == id ==>
              Last(cfg, calls).admitted == SoloLast(cfg, Projection(cfg, calls, id)).1
    decreases |calls|
  {
    hide Available, Clears;
    if calls != [] {
      var front := calls[..|calls| - 1];
      IsolationRefinesSolo(cfg, front, id);
      var seen := Projection(cfg, calls, id);
      assert seen == Projection(cfg, front, id) || seen[..|seen| - 1] == Projection(cfg, front, id);
    }
  }

  /** The map never outgrows its limit, nor one entry when the limit is zero. */
  lemma {:induction false} MapBounded(cfg: Config, calls: seq<Call>)
    requires cfg.maxEntries.Some?
    ensures |After(cfg, calls)| <= if cfg.maxEntries.value >= 1 then cfg.maxEntries.value else 1
    decreases |calls|
  {
    if calls != [] {
      var front, call := calls[..|calls| - 1], calls[|calls| - 1];
      MapBounded(cfg, front);
      var before, after := After(cfg, front), After(cfg, calls);
      assert after.Keys == (if Last(cfg, calls).cleared then {} else before.Keys) + {call.id};
      if !Last(cfg, calls).cleared && call.id in before {
        assert after.Keys == before.Keys;
      }
    }
  }
}
