/**
 * The time-limited single-flight cache behind the status endpoint. A read that is out is joined, an
 * answer younger than its time to live is served again, and an answer that can never change again
 * is kept for good. A read's completion is two separate events: first its value is stored (or its
 * rejection swallowed), later it stops counting as in flight; anything may happen in between.
 */
module SingleFlight {
  import opened Options

  datatype Config<!T> = Config(ttlMs: real, isTerminal: T -> bool)

  datatype Stored<T> = Stored(value: T, atMs: real)

  /** The closure's three variables. `inFlight` names the read a caller would join. */
  datatype Cache<T> = Cache(cached: Option<Stored<T>>, terminal: bool, inFlight: Option<nat>)

  datatype Ending<T> = Out | Resolved(stored: Stored<T>) | Rejected

  /** One call of the reader, and whether its completion has run to the end. */
  datatype Read<T> = Read(startMs: real, fate: Ending<T>, closed: bool)

  datatype System<T> = System(cache: Cache<T>, log: seq<Read<T>>, nowMs: real)

  datatype Event<T> =
    | Tick(ms: real)
    | Call
    | Resolve(read: nat, value: T)
    | Reject(read: nat)
    | Finally(read: nat)

  datatype Answer<T> = Served(value: T) | Joined(read: nat)

  predicate Fresh<T>(cfg: Config<T>, cache: Cache<T>, nowMs: real) {
    cache.cached.Some? && (cache.terminal || nowMs - cache.cached.value.atMs < cfg.ttlMs)
  }

  /** What a caller is given: the stored value, the read that is out, or a read of its own. */
  function Respond<T>(cfg: Config<T>, sys: System<T>): Answer<T> {
    if Fresh(cfg, sys.cache, sys.nowMs) then Served(sys.cache.cached.value.value)
    else if sys.cache.inFlight.Some? then Joined(sys.cache.inFlight.value)
    else Joined(|sys.log|)
  }

  predicate IsOut<T>(sys: System<T>, read: nat) { read < |sys.log| && sys.log[read].fate.Out? }

  function Step<T>(cfg: Config<T>, sys: System<T>, event: Event<T>): System<T> {
    match event
    case Tick(ms) => if ms >= 0.0 then sys.(nowMs := sys.nowMs + ms) else sys
    case Call =>
      if Respond(cfg, sys) == Joined(|sys.log|) && sys.cache.inFlight.None? then
        sys.(log := sys.log + [Read(sys.nowMs, Out, false)], cache := sys.cache.(inFlight := Some(|sys.log|)))
      else sys
    case Resolve(r, value) =>
      if !IsOut(sys, r) then sys
      else
        var stored := Stored(value, sys.nowMs);
        sys.(log := sys.log[r := sys.log[r].(fate := Resolved(stored))],
             cache := sys.cache.(cached := Some(stored), terminal := cfg.isTerminal(value)))
    case Reject(r) =>
      if !IsOut(sys, r) then sys else sys.(log := sys.log[r := sys.log[r].(fate := Rejected)])
    case Finally(r) =>
      if r >= |sys.log| || sys.log[r].fate.Out? || sys.log[r].closed then sys
      else sys.(log := sys.log[r := sys.log[r].(closed := true)], cache := sys.cache.(inFlight := None))
  }

  function Opening<T>(): System<T> { System(Cache(None, false, None), [], 0.0) }

  function Replay<T>(cfg: Config<T>, events: seq<Event<T>>): System<T> {
    if events == [] then Opening() else Step(cfg, Replay(cfg, events[..|events| - 1]), events[|events| - 1])
  }

  // --- The closure ---------------------------------------------------------------------------------

  /** `createTtlSingleFlight`: three variables, one callable and the three arms of a read's completion. */
  class TtlSingleFlight<T(==)> {
    const cfg: Config<T>
    var cached: Option<Stored<T>>
    var terminal: bool
    var inFlight: Option<nat>
    ghost var sys: System<T>

    constructor (cfg: Config<T>)
      ensures this.cfg == cfg && Valid() && sys == Opening()
    {
      this.cfg := cfg;
      cached, terminal, inFlight := None, false, None;
      sys := Opening();
      OpeningInv(cfg);
    }

    /** The three variables are those of a system that keeps what every run keeps. */
    ghost predicate Valid()
      reads this
    {
      sys.cache == Cache(cached, terminal, inFlight) && Inv(cfg, sys)
    }

    /** Time passes outside. */
    ghost method Wait(ms: real)
      requires Valid()
      modifies this`sys
      ensures Valid() && sys == Step(cfg, old(sys), Tick(ms))
    {
      hide Inv;
      TickKeepsInv(cfg, sys, ms);
      sys := Step(cfg, sys, Tick(ms));
    }

    /** `next` is the read that would be started; `started` says whether it was. */
    method Invoke(nowMs: real, next: nat) returns (answer: Answer<T>, started: bool)
      requires Valid() && nowMs == sys.nowMs && next == |sys.log|
      modifies this
      ensures Valid() && sys == Step(cfg, old(sys), Call) && answer == Respond(cfg, old(sys))
      ensures started <==> |sys.log| == |old(sys).log| + 1
    {
      CallKeepsInv(cfg, sys);
      assert inFlight.Some? ==> inFlight.value < next;
      sys := Step(cfg, sys, Call);
      if cached.Some? && (terminal || nowMs - cached.value.atMs < cfg.ttlMs) {
        return Served(cached.value.value), false;
      }
      if inFlight.Some? { return Joined(inFlight.value), false; }
      inFlight := Some(next);
      return Joined(next), true;
    }

    method OnValue(ghost read: nat, value: T, nowMs: real)
      requires Valid() && nowMs == sys.nowMs && IsOut(sys, read)
      modifies this
      ensures Valid() && sys == Step(cfg, old(sys), Resolve(read, value))
    {
      hide Inv;
      ResolveKeepsInv(cfg, sys, read, value);
      sys := Step(cfg, sys, Resolve(read, value));
      cached := Some(Stored(value, nowMs));
      terminal := cfg.isTerminal(value);
    }

    method OnRejection(ghost read: nat, degraded: T) returns (value: T)
      requires Valid() && IsOut(sys, read)
      modifies this
      ensures Valid() && sys == Step(cfg, old(sys), Reject(read)) && value == degraded
    {
      hide Inv;
      RejectKeepsInv(cfg, sys, read);
      sys := Step(cfg, sys, Reject(read));
      return degraded;
    }

    method OnFinally(ghost read: nat)
      requires Valid() && read < |sys.log| && !sys.log[read].fate.Out? && !sys.log[read].closed
      modifies this
      ensures Valid() && sys == Step(cfg, old(sys), Finally(read))
    {
      hide Inv;
      FinallyKeepsInv(cfg, sys, read);
      sys := Step(cfg, sys, Finally(read));
      inFlight := None;
    }
  }

  // --- What every run keeps --------------------------------------------------------------------------

  /** The value of the latest read that resolved. */
  function Latest<T>(log: seq<Read<T>>): Option<Stored<T>> {
    if log == [] then None
    else if log[|log| - 1].fate.Resolved? then Some(log[|log| - 1].fate.stored)
    else Latest(log[..|log| - 1])
  }

  /** Only the newest read may still be open, and it is the one a caller would join. */
  ghost predicate OneOpen<T>(sys: System<T>) {
    && (forall i :: 0 <= i < |sys.log| ==> sys.log[i].closed ==> !sys.log[i].fate.Out?)
    && (forall i :: 0 <= i < |sys.log| - 1 ==> sys.log[i].closed)
    && sys.cache.inFlight == if sys.log != [] && !sys.log[|sys.log| - 1].closed then Some(|sys.log| - 1) else None
  }

  /** A read starts only once every value before it has outlived its time to live and is not final. */
  ghost predicate Spaced<T>(cfg: Config<T>, log: seq<Read<T>>) {
    forall i, j :: 0 <= i < j < |log| && log[i].fate.Resolved? ==>
      log[j].startMs - log[i].fate.stored.atMs >= cfg.ttlMs && !cfg.isTerminal(log[i].fate.stored.value)
  }

  ghost predicate Timely<T>(log: seq<Read<T>>, nowMs: real) {
    && (forall i :: 0 <= i < |log| ==> log[i].startMs <= nowMs)
    && (forall i :: 0 <= i < |log| && log[i].fate.Resolved? ==> log[i].startMs <= log[i].fate.stored.atMs <= nowMs)
    && (forall i, j :: 0 <= i < j < |log| && log[i].fate.Resolved? && log[j].fate.Resolved? ==>
          log[i].fate.stored.atMs <= log[j].fate.stored.atMs)
  }

  ghost predicate Inv<T>(cfg: Config<T>, sys: System<T>) {
    && OneOpen(sys) && Timely(sys.log, sys.nowMs) && Spaced(cfg, sys.log)
    && sys.cache.cached == Latest(sys.log)
    && sys.cache.terminal == (sys.cache.cached.Some? && cfg.isTerminal(sys.cache.cached.value.value))
  }

  lemma {:induction false} LatestIsLatest<T>(log: seq<Read<T>>)
    ensures Latest(log).None? ==> forall i :: 0 <= i < |log| ==> !log[i].fate.Resolved?
    ensures Latest(log).Some? ==>
              exists i :: 0 <= i < |log| && log[i].fate == Resolved(Latest(log).value)
                       && forall j :: i < j < |log| ==> !log[j].fate.Resolved?
    decreases |log|
  {
    if log != [] && !log[|log| - 1].fate.Resolved? {
      LatestIsLatest(log[..|log| - 1]);
    }
  }

  /** When a read may start, every value stored so far has expired and none is final. */
  lemma StaleBeforeStart<T>(cfg: Config<T>, sys: System<T>, i: nat)
    requires Inv(cfg, sys) && !Fresh(cfg, sys.cache, sys.nowMs)
    requires i < |sys.log| && sys.log[i].fate.Resolved?
    ensures sys.nowMs - sys.log[i].fate.stored.atMs >= cfg.ttlMs && !cfg.isTerminal(sys.log[i].fate.stored.value)
  {
    hide Latest;
    LatestIsLatest(sys.log);
    var k :| 0 <= k < |sys.log| && sys.log[k].fate == Resolved(Latest(sys.log).value)
             && forall j :: k < j < |sys.log| ==> !sys.log[j].fate.Resolved?;
    assert i <= k;
  }

  lemma CallKeepsInv<T>(cfg: Config<T>, sys: System<T>)
    requires Inv(cfg, sys)
    ensures Inv(cfg, Step(cfg, sys, Call))
  {
    hide Fresh;
    var next := Step(cfg, sys, Call);
    if !Fresh(cfg, sys.cache, sys.nowMs) && sys.cache.inFlight.None? {
      assert next.log[..|next.log| - 1] == sys.log;
      forall i: nat | i < |sys.log| && sys.log[i].fate.Resolved?
        ensures sys.nowMs - sys.log[i].fate.stored.atMs >= cfg.ttlMs && !cfg.isTerminal(sys.log[i].fate.stored.value)
      {
        StaleBeforeStart(cfg, sys, i);
      }
      assert Spaced(cfg, next.log);
    }
  }

  lemma ResolveKeepsInv<T>(cfg: Config<T>, sys: System<T>, r: nat, value: T)
    requires Inv(cfg, sys)
    ensures Inv(cfg, Step(cfg, sys, Resolve(r, value)))
  {
    var next := Step(cfg, sys, Resolve(r, value));
    if IsOut(sys, r) {
      assert r == |sys.log| - 1;
      assert next.log[..r] == sys.log[..r];
    }
  }

  lemma RejectKeepsInv<T>(cfg: Config<T>, sys: System<T>, r: nat)
    requires Inv(cfg, sys)
    ensures Inv(cfg, Step(cfg, sys, Reject(r)))
  {
    var next := Step(cfg, sys, Reject(r));
    if IsOut(sys, r) {
      assert r == |sys.log| - 1;
      assert next.log[..r] == sys.log[..r];
    }
  }

  lemma {:induction false} LatestIgnoresClosing<T>(log: seq<Read<T>>, r: nat)
    requires r < |log|
    ensures Latest(log[r := log[r].(closed := true)]) == Latest(log)
    decreases |log|
  {
    var log' := log[r := log[r].(closed := true)];
    if r < |log| - 1 {
      LatestIgnoresClosing(log[..|log| - 1], r);
      assert log'[..|log| - 1] == log[..|log| - 1][r := log[r].(closed := true)];
    } else {
      assert log'[..r] == log[..r];
    }
  }

  lemma FinallyKeepsInv<T>(cfg: Config<T>, sys: System<T>, r: nat)
    requires Inv(cfg, sys)
    ensures Inv(cfg, Step(cfg, sys, Finally(r)))
  {
    if r < |sys.log| { LatestIgnoresClosing(sys.log, r); }
  }

  lemma {:induction false} RunKeepsInv<T>(cfg: Config<T>, events: seq<Event<T>>)
    ensures Inv(cfg, Replay(cfg, events))
    decreases |events|
  {
    hide Inv, Step;
    if events == [] {
      OpeningInv(cfg);
    } else {
      var before := Replay(cfg, events[..|events| - 1]);
      RunKeepsInv(cfg, events[..|events| - 1]);
      match events[|events| - 1]
      case Tick(ms) => TickKeepsInv(cfg, before, ms);
      case Call => CallKeepsInv(cfg, before);
      case Resolve(r, value) => ResolveKeepsInv(cfg, before, r, value);
      case Reject(r) => RejectKeepsInv(cfg, before, r);
      case Finally(r) => FinallyKeepsInv(cfg, before, r);
    }
  }

  lemma OpeningInv<T>(cfg: Config<T>)
    ensures Inv(cfg, Opening())
  {
  }

  lemma TickKeepsInv<T>(cfg: Config<T>, sys: System<T>, ms: real)
    requires Inv(cfg, sys)
    ensures Inv(cfg, Step(cfg, sys, Tick(ms)))
  {
  }

  // --- Results -----------------------------------------------------------------------------------------

  /** In every run at most one read is in flight, and a caller who joins a read joins that one. */
  lemma AtMostOneInFlight<T>(cfg: Config<T>, events: seq<Event<T>>)
    ensures var sys := Replay(cfg, events);
            && (forall i, j :: 0 <= i < j < |sys.log| ==> sys.log[i].closed || sys.log[j].closed)
            && (forall r: nat :: Respond(cfg, sys) == Joined(r) && r < |sys.log| ==> !sys.log[r].closed)
  {
    RunKeepsInv(cfg, events);
  }

  /** A value served from the cache is the newest one read, and is final or younger than its time to live. */
  lemma ServedIsNewest<T>(cfg: Config<T>, events: seq<Event<T>>)
    requires Respond(cfg, Replay(cfg, events)).Served?
    ensures var sys := Replay(cfg, events);
            exists i :: 0 <= i < |sys.log| && sys.log[i].fate.Resolved?
                     && sys.log[i].fate.stored.value == Respond(cfg, sys).value
                     && (forall j :: i < j < |sys.log| ==> !sys.log[j].fate.Resolved?)
                     && (cfg.isTerminal(sys.log[i].fate.stored.value) || sys.nowMs - sys.log[i].fate.stored.atMs < cfg.ttlMs)
  {
    RunKeepsInv(cfg, events);
    LatestIsLatest(Replay(cfg, events).log);
  }

  /** Read `i` is the newest that resolved, and its value is final or younger than its time to live. */
  ghost predicate Current<T>(cfg: Config<T>, sys: System<T>, i: int) {
    && 0 <= i < |sys.log| && sys.log[i].fate.Resolved? && (forall j :: i < j < |sys.log| ==> !sys.log[j].fate.Resolved?)
    && (cfg.isTerminal(sys.log[i].fate.stored.value) || sys.nowMs - sys.log[i].fate.stored.atMs < cfg.ttlMs)
  }

  /**
   * What a caller gets, exactly: the current value if there is one; otherwise the read that is still open;
   * and only without one a read of its own, which starts then.
   */
  lemma AnswerExactly<T>(cfg: Config<T>, events: seq<Event<T>>)
    ensures var sys, next := Replay(cfg, events), Replay(cfg, events + [Call]);
            && (forall i :: Current(cfg, sys, i) ==> Respond(cfg, sys) == Served(sys.log[i].fate.stored.value) && next.log == sys.log)
            && ((forall i :: !Current(cfg, sys, i)) ==>
                  && (forall i: nat :: i < |sys.log| && !sys.log[i].closed ==> Respond(cfg, sys) == Joined(i) && next.log == sys.log)
                  && ((forall i :: 0 <= i < |sys.log| ==> sys.log[i].closed) ==>
                        Respond(cfg, sys) == Joined(|sys.log|) && next.log == sys.log + [Read(sys.nowMs, Out, false)]))
  {
    hide Latest, Replay;
    RunKeepsInv(cfg, events);
    ReplayOne(cfg, events, Call);
    var sys := Replay(cfg, events);
    LatestIsLatest(sys.log);
    if Latest(sys.log).Some? {
      var i :| 0 <= i < |sys.log| && sys.log[i].fate == Resolved(Latest(sys.log).value)
               && forall j :: i < j < |sys.log| ==> !sys.log[j].fate.Resolved?;
      assert Current(cfg, sys, i) <==> Fresh(cfg, sys.cache, sys.nowMs);
    }
  }

  /** The reads that started between two times and have not been rejected. */
  function StartedIn<T>(log: seq<Read<T>>, a: real, b: real): nat {
    if log == [] then 0
    else StartedIn(log[..|log| - 1], a, b) + (if Counted(log[|log| - 1], a, b) then 1 else 0)
  }

  predicate Counted<T>(read: Read<T>, a: real, b: real) { !read.fate.Rejected? && a <= read.startMs <= b }

  lemma {:induction false} StartsSpread<T>(cfg: Config<T>, log: seq<Read<T>>, nowMs: real, a: real, b: real) returns (last: nat)
    requires Spaced(cfg, log) && Timely(log, nowMs) && cfg.ttlMs > 0.0 && StartedIn(log, a, b) > 0
    requires forall i :: 0 <= i < |log| - 1 ==> !log[i].fate.Out?
    ensures last < |log| && Counted(log[last], a, b)
    ensures Stretch(cfg, StartedIn(log, a, b) - 1) <= log[last].startMs - a
    decreases |log|
  {
    hide Stretch, Spaced, Timely;
    var front, n := log[..|log| - 1], |log| - 1;
    if StartedIn(front, a, b) == 0 {
      StretchGrows(cfg, 0);
      return n;
    }
    FrontKept(cfg, log, nowMs);
    last := StartsSpread(cfg, front, nowMs, a, b);
    if Counted(log[n], a, b) {
      StartsApart(cfg, log, nowMs, last, n);
      StretchGrows(cfg, StartedIn(front, a, b) - 1);
      last := n;
    }
  }

  /** The time `n` starts after the first one take up. */
  function Stretch<T>(cfg: Config<T>, n: nat): real { n as real * cfg.ttlMs }

  lemma StretchGrows<T>(cfg: Config<T>, n: nat)
    ensures Stretch(cfg, n + 1) == Stretch(cfg, n) + cfg.ttlMs && Stretch(cfg, 0) == 0.0
  {
  }

  lemma FrontKept<T>(cfg: Config<T>, log: seq<Read<T>>, nowMs: real)
    requires log != [] && Spaced(cfg, log) && Timely(log, nowMs)
    ensures Spaced(cfg, log[..|log| - 1]) && Timely(log[..|log| - 1], nowMs)
  {
    var front := log[..|log| - 1];
    assert forall i :: 0 <= i < |front| ==> front[i] == log[i];
    assert Spaced(cfg, front);
    assert Timely(front, nowMs);
  }

  lemma StartsApart<T>(cfg: Config<T>, log: seq<Read<T>>, nowMs: real, i: nat, j: nat)
    requires Spaced(cfg, log) && Timely(log, nowMs) && i < j < |log| && log[i].fate.Resolved?
    ensures log[j].startMs - log[i].startMs >= cfg.ttlMs
  {
  }

  /** In any window of T milliseconds at most 1 + floor(T / ttl) reads start that do not reject. */
  lemma StartsBound<T>(cfg: Config<T>, events: seq<Event<T>>, a: real, b: real)
    requires cfg.ttlMs > 0.0 && a <= b
    ensures StartedIn(Replay(cfg, events).log, a, b) <= 1 + ((b - a) / cfg.ttlMs).Floor
  {
    hide Replay, StartedIn;
    RunKeepsInv(cfg, events);
    var sys := Replay(cfg, events);
    var k := StartedIn(sys.log, a, b);
    if k > 0 {
      var last := StartsSpread(cfg, sys.log, sys.nowMs, a, b);
      DivideBoth((k - 1) as real, cfg.ttlMs, b - a);
    } else {
      DivideBoth(0.0, cfg.ttlMs, b - a);
    }
  }

  lemma DivideBoth(n: real, ttl: real, ms: real)
    requires ttl > 0.0 && n * ttl <= ms
    ensures n <= ms / ttl
  {
  }

  /** Once a terminal value is stored, no read ever starts again and every caller is served that value. */
  lemma {:induction false} TerminalForever<T>(cfg: Config<T>, before: seq<Event<T>>, after: seq<Event<T>>)
    requires Replay(cfg, before).cache.terminal
    ensures var then_, now := Replay(cfg, before), Replay(cfg, before + after);
            && now.cache.terminal && now.cache.cached == then_.cache.cached && then_.cache.cached.Some?
            && |now.log| == |then_.log|
            && Respond(cfg, now) == Served(then_.cache.cached.value.value)
    decreases |after|
  {
    hide Inv;
    if after == [] {
      assert before + after == before;
      RunKeepsInv(cfg, before);
      TerminalHasValue(cfg, Replay(cfg, before));
    } else {
      var front := after[..|after| - 1];
      TerminalForever(cfg, before, front);
      assert (before + after)[..|before + after| - 1] == before + front;
      RunKeepsInv(cfg, before + front);
      TerminalNothingOut(cfg, Replay(cfg, before + front));
    }
  }

  lemma TerminalHasValue<T>(cfg: Config<T>, sys: System<T>)
    requires Inv(cfg, sys) && sys.cache.terminal
    ensures sys.cache.cached.Some?
  {
  }

  /** The read that brought a terminal value was the last one, so nothing else can still resolve. */
  lemma TerminalNothingOut<T>(cfg: Config<T>, sys: System<T>)
    requires Inv(cfg, sys) && sys.cache.terminal
    ensures forall r: nat :: !IsOut(sys, r)
  {
    LatestIsLatest(sys.log);
    var i :| 0 <= i < |sys.log| && sys.log[i].fate == Resolved(Latest(sys.log).value);
    assert cfg.isTerminal(sys.log[i].fate.stored.value);
    assert i == |sys.log| - 1;
  }

  // --- Why the bound counts only reads that do not reject ------------------------------------------------

  function Hammer<T>(n: nat): seq<Event<T>> {
    if n == 0 then [] else Hammer(n - 1) + [Call, Reject(n - 1), Finally(n - 1)]
  }

  /** A reader that rejects is never cached, so it can be called any number of times in no time at all. */
  lemma {:induction false} RejectionsAreUnbounded<T>(cfg: Config<T>, n: nat)
    ensures var sys := Replay(cfg, Hammer(n));
            |sys.log| == n && sys.nowMs == 0.0 && sys.cache == Cache(None, false, None)
  {
    hide Step, Replay;
    if n == 0 {
      ReplayNothing(cfg);
    } else {
      RejectionsAreUnbounded(cfg, n - 1);
      var prior, sys := Hammer<T>(n - 1), Replay(cfg, Hammer<T>(n - 1));
      ReplayOne(cfg, prior, Call);
      ReplayOne(cfg, prior + [Call], Reject(n - 1));
      ReplayOne(cfg, prior + [Call] + [Reject(n - 1)], Finally(n - 1));
      assert Hammer(n) == prior + [Call] + [Reject(n - 1)] + [Finally(n - 1)];
      OneRejection(cfg, sys);
    }
  }

  lemma ReplayNothing<T>(cfg: Config<T>)
    ensures Replay(cfg, []) == Opening()
  {
  }

  lemma ReplayOne<T>(cfg: Config<T>, events: seq<Event<T>>, event: Event<T>)
    ensures Replay(cfg, events + [event]) == Step(cfg, Replay(cfg, events), event)
  {
    assert (events + [event])[..|events|] == events;
  }

  lemma OneRejection<T>(cfg: Config<T>, sys: System<T>)
    requires sys.cache == Cache(None, false, None)
    ensures var n := |sys.log|;
            var next := Step(cfg, Step(cfg, Step(cfg, sys, Call), Reject(n)), Finally(n));
            |next.log| == n + 1 && next.nowMs == sys.nowMs && next.cache == sys.cache
  {
    var n := |sys.log|;
    var called := Step(cfg, sys, Call);
    assert called.log[n] == Read(sys.nowMs, Out, false);
    var rejected := Step(cfg, called, Reject(n));
    assert rejected.log[n] == Read(sys.nowMs, Rejected, false);
  }
}
