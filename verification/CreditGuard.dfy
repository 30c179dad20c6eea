/**
 * The credit guard as the program runs it: reserve, run, then commit or release, with bounded
 * retries and one classifying read. Between any two of its calls the adversary lets everybody
 * else act. Every execution is an execution of `CreditProtocol`.
 */
module CreditGuard {
  import opened CreditLedger
  import opened Network
  import opened Options
  import opened CreditProtocol

  datatype Rpc = CommitRpc | ReleaseRpc

  /** How a guarded call ends for its caller. */
  datatype Outcome =
    | Refused            // by a gate, before anything was reserved
    | Free(ok: bool)     // a zero-cost tool: the ledger is never touched
    | Value              // the work's result, charged
    | Threw(why: Failure)

  /** What the ledger says of a reserve whose commit was not confirmed. */
  datatype Reading = SaysCommitted | Says(disposition: Disposition)

  /** One of the calls after the first number, up to the second, reached the ledger. */
  ghost predicate Applied(choices: nat -> Choice, since: nat, until: nat) {
    exists n: nat :: since < n <= until && choices(n).fate != NeverApplied
  }

  lemma AppliedOneMore(choices: nat -> Choice, since: nat, until: nat)
    requires since <= until
    ensures Applied(choices, since, until + 1) ==> Applied(choices, since, until) || choices(until + 1).fate != NeverApplied
  {
  }

  lemma NoneApplied(choices: nat -> Choice, since: nat)
    ensures !Applied(choices, since, since)
  {
  }

  /**
   * Release was called, as calls `since + 1` to `until`, at least once and at most SETTLE_ATTEMPTS times,
   * and fewer times only once the reserve was released; if one of the calls reached the ledger, the
   * reserve is released and has cost nothing.
   */
  ghost predicate Released(rows: Ledger, id: nat, choices: nat -> Choice, since: nat, until: nat) {
    && since < until <= since + SETTLE_ATTEMPTS
    && (until < since + SETTLE_ATTEMPTS || Applied(choices, since, until) ==> HasRow(rows, SpendRelease, id) && Net(rows, id) == 0)
  }

  lemma ReleasedNet(sys: System, id: nat)
    requires Inv(sys) && HasRow(sys.rows, SpendRelease, id)
    ensures Net(sys.rows, id) == 0
  {
    NetIsCostOrNothing(sys.rows, id);
  }

  /** The last call read the ledger: a failed read tells nothing, any other what the rows show. */
  ghost predicate ReadAs(disposition: Disposition, rows: Ledger, id: nat, ok: bool) {
    && (disposition == Unknown <==> !ok)
    && (disposition == Refunded ==> HasRow(rows, SpendRelease, id) && !HasRow(rows, SpendCommit, id))
    && (disposition == Open ==> !Settled(rows, id))
  }

  /**
   * The calls of a run after its reserve, call number `since`, and what they came to: the link of a queued
   * run, the work, then releases if either failed, or commits and at most one read.
   */
  ghost predicate Course(outcome: Outcome, queued: bool, rows: Ledger, id: nat, choices: nat -> Choice, since: nat, until: nat) {
    var worked := if queued then since + 2 else since + 1;
    match outcome
    case Threw(LinkFailed) => queued && !choices(since + 1).ok && Released(rows, id, choices, since + 1, until)
    case Threw(WorkFailed) => (queued ==> choices(since + 1).ok) && !choices(worked).ok && Released(rows, id, choices, worked, until)
    case Threw(NotReserved) => false
    case Threw(CommitFailed(disposition)) =>
      && (queued ==> choices(since + 1).ok) && choices(worked).ok && worked + 1 < until <= worked + SETTLE_ATTEMPTS + 1
      && ReadAs(disposition, rows, id, choices(until).ok)
      && (disposition == Open ==> !Applied(choices, worked, until - 1))
    case Value => (queued ==> choices(since + 1).ok) && choices(worked).ok && worked < until <= worked + SETTLE_ATTEMPTS + 1
    case _ => false
  }

  lemma CourseNamed(outcome: Outcome, queued: bool, rows: Ledger, id: nat, choices: nat -> Choice, since: nat, until: nat)
    requires Course(outcome, queued, rows, id, choices, since, until)
    ensures outcome != Threw(NotReserved) && !outcome.Refused? && !outcome.Free?
  {
  }

  lemma EndsSafely(sys: System, r: nat)
    requires Inv(sys) && r < |sys.runs|
    ensures SafelyEnded(sys.rows, sys.runs[r])
  {
    assert RunSound(sys.rows, sys.runs[r]);
    SoundEnd(sys.rows, sys.runs[r]);
  }

  class Guard {
    var sys: System
    var calls: nat
    const others: nat -> seq<Label>     // what everybody else does before call `n`
    const choices: nat -> Choice        // what happens to call `n`

    ghost const start: System
    ghost var trace: seq<Label>

    constructor (sys: System, others: nat -> seq<Label>, choices: nat -> Choice)
      requires Inv(sys)
      ensures Valid() && this.sys == sys && start == sys && trace == []
    {
      this.sys := sys;
      this.others := others;
      this.choices := choices;
      calls, start, trace := 0, sys, [];
    }

    /** The state was reached by protocol steps from a sound one. */
    ghost predicate Valid()
      reads this
    {
      sys == Replay(start, trace) && Inv(start) && Inv(sys)
    }

    method Act(act: Label)
      requires Valid()
      modifies this`sys, this`trace
      ensures Valid() && sys == Step(old(sys), act) && trace == old(trace) + [act] && old(sys).rows <= sys.rows
    {
      hide Inv, Step;
      StepInv(sys, act);
      sys := Step(sys, act);
      trace := trace + [act];
      assert trace[..|trace| - 1] == old(trace);
    }

    /** Everybody but run `r` acts, in the adversary's order. */
    method Yield(r: nat)
      requires Valid() && r < |sys.runs|
      modifies this`sys, this`trace, this`calls
      ensures Valid() && r < |sys.runs| && sys.runs[r] == old(sys.runs[r])
      ensures old(trace) <= trace && calls == old(calls) + 1 && old(sys).rows <= sys.rows
    {
      hide Inv;
      var acts := others(calls);
      calls := calls + 1;
      for i := 0 to |acts|
        invariant Valid() && r < |sys.runs| && sys.runs[r] == old(sys.runs[r])
        invariant old(trace) <= trace && calls == old(calls) + 1 && old(sys).rows <= sys.rows
      {
        if !(acts[i].Advance? && acts[i].run == r) { Act(acts[i]); }
      }
    }

    /** One commit or release call, applied or not as the adversary chooses. */
    method CallSettle(rpc: Rpc, r: nat, id: nat, ghost attempt: nat, ghost why: Failure) returns (reply: Reply)
      requires Valid() && r < |sys.runs|
      requires sys.runs[r].phase == if rpc.CommitRpc? then Committing(id, attempt) else Releasing(id, attempt, why)
      modifies this`sys, this`trace, this`calls
      ensures Valid() && r < |sys.runs| && old(trace) <= trace && calls == old(calls) + 1 && old(sys).rows <= sys.rows
      ensures reply.Confirmed? || reply.terminal ==> choices(calls).fate == Delivered
      ensures rpc.ReleaseRpc? && choices(calls).fate != NeverApplied ==> HasRow(sys.rows, SpendRelease, id)
      ensures rpc.CommitRpc? && choices(calls).fate != NeverApplied ==> Settled(sys.rows, id)
      ensures sys.runs[r] == old(sys.runs[r]).(phase :=
                if rpc.CommitRpc? then AfterCommit(id, attempt, reply) else AfterRelease(id, attempt, why, reply))
    {
      Yield(r);
      var c := choices(calls);
      if c.fate != NeverApplied {
        if rpc.ReleaseRpc? { ReleaseApplied(sys.rows, sys.runs[r], c); } else { CommitApplied(sys.rows, sys.runs[r], c); }
      }
      var answer := if rpc.CommitRpc? then Commit(sys.rows, id, c.at) else Release(sys.rows, id, c.at);
      reply := ReplyOf(answer, c.fate);
      Act(Advance(r, c));
    }

    /**
     * Between one and SETTLE_ATTEMPTS calls, and no more once one is confirmed or fails with an error
     * no retry can change; `last` is the reply to the last of them. A release that reached the ledger
     * in any of them has released the reserve.
     */
    method Settle(rpc: Rpc, r: nat, id: nat, ghost why: Failure) returns (confirmed: bool, ghost last: Reply)
      requires Valid() && r < |sys.runs|
      requires sys.runs[r].phase == if rpc.CommitRpc? then Committing(id, 1) else Releasing(id, 1, why)
      modifies this`sys, this`trace, this`calls
      ensures Valid() && r < |sys.runs| && old(trace) <= trace && old(sys).rows <= sys.rows
      ensures old(calls) < calls <= old(calls) + SETTLE_ATTEMPTS
      ensures rpc.ReleaseRpc? ==> Released(sys.rows, id, choices, old(calls), calls)
      ensures rpc.CommitRpc? && Applied(choices, old(calls), calls) ==> Settled(sys.rows, id)
      ensures confirmed <==> last.Confirmed?
      ensures !confirmed && calls < old(calls) + SETTLE_ATTEMPTS ==> last.terminal
      ensures sys.runs[r] == old(sys.runs[r]).(phase :=
                if rpc.ReleaseRpc? then Thrown(Some(id), why) else if confirmed then Returned(id) else Reading(id))
    {
      hide Inv, HasRow, Net, Applied, Settled;
      var attempt := 1;
      NoneApplied(choices, calls);
      while attempt <= SETTLE_ATTEMPTS
        invariant 1 <= attempt <= SETTLE_ATTEMPTS
        invariant Valid() && r < |sys.runs| && old(trace) <= trace && calls == old(calls) + attempt - 1 && old(sys).rows <= sys.rows
        invariant rpc.ReleaseRpc? && Applied(choices, old(calls), calls) ==> HasRow(sys.rows, SpendRelease, id)
        invariant rpc.CommitRpc? && Applied(choices, old(calls), calls) ==> Settled(sys.rows, id)
        invariant sys.runs[r] == old(sys.runs[r]).(phase :=
                    if rpc.CommitRpc? then Committing(id, attempt) else Releasing(id, attempt, why))
      {
        ghost var rows := sys.rows;
        var reply := CallSettle(rpc, r, id, attempt, why);
        AppliedOneMore(choices, old(calls), calls - 1);
        if HasRow(rows, SpendRelease, id) { HasRowStays(rows, sys.rows, SpendRelease, id); }
        if Settled(rows, id) { SettledStays(rows, sys.rows, id); }
        if HasRow(sys.rows, SpendRelease, id) { ReleasedNet(sys, id); }
        last := reply;
        if reply.Confirmed? { return true, last; }
        if reply.terminal || attempt == SETTLE_ATTEMPTS { return false, last; }
        attempt := attempt + 1;
      }
      return false, last;
    }

    /** Ask the ledger, by a read only, what became of the reserve. */
    method ReadDisposition(r: nat, id: nat) returns (reading: Reading)
      requires Valid() && r < |sys.runs| && sys.runs[r].phase == CreditProtocol.Phase.Reading(id)
      modifies this`sys, this`trace, this`calls
      ensures Valid() && r < |sys.runs| && old(trace) <= trace && calls == old(calls) + 1
      ensures sys.runs[r] == old(sys.runs[r]).(phase :=
                if reading.SaysCommitted? then Returned(id) else Thrown(Some(id), CommitFailed(reading.disposition)))
      ensures old(sys).rows <= sys.rows
      ensures reading.Says? ==> ReadAs(reading.disposition, sys.rows, id, choices(calls).ok)
      ensures reading.SaysCommitted? ==> choices(calls).ok && HasRow(sys.rows, SpendCommit, id)
    {
      Yield(r);
      var c := choices(calls);
      var kinds := set j | 0 <= j < |sys.rows| && Settles(sys.rows[j], id) :: sys.rows[j].kind;
      forall kind ensures kind in kinds <==> (kind.SpendCommit? || kind.SpendRelease?) && HasRow(sys.rows, kind, id) {
        if kind in kinds {
          var j :| 0 <= j < |sys.rows| && Settles(sys.rows[j], id) && sys.rows[j].kind == kind;
        }
        if (kind.SpendCommit? || kind.SpendRelease?) && HasRow(sys.rows, kind, id) {
          var j :| 0 <= j < |sys.rows| && sys.rows[j].kind == kind && sys.rows[j].reserveId == id;
          assert Settles(sys.rows[j], id);
        }
      }
      reading := if !c.ok then Says(Unknown)
                 else if SpendCommit in kinds then SaysCommitted
                 else if SpendRelease in kinds then Says(Refunded)
                 else Says(Open);
      Act(Advance(r, c));
    }

    /** Settle the spend; an unconfirmed commit is what the ledger says it is. */
    method CommitSpend(r: nat, id: nat) returns (outcome: Outcome)
      requires Valid() && r < |sys.runs| && sys.runs[r].phase == Committing(id, 1)
      modifies this`sys, this`trace, this`calls
      ensures Valid() && r < |sys.runs| && old(trace) <= trace && old(calls) < calls <= old(calls) + SETTLE_ATTEMPTS + 1
      ensures outcome.Value? || (outcome.Threw? && outcome.why.CommitFailed? && calls > old(calls) + 1
                && ReadAs(outcome.why.disposition, sys.rows, id, choices(calls).ok)
                && (outcome.why.disposition == Open ==> !Applied(choices, old(calls), calls - 1)))
      ensures sys.runs[r] == old(sys.runs[r]).(phase := if outcome.Value? then Returned(id) else Thrown(Some(id), outcome.why))
    {
      var confirmed, _ := Settle(CommitRpc, r, id, WorkFailed);
      if confirmed { return Value; }
      ghost var rows := sys.rows;
      var reading := ReadDisposition(r, id);
      if Settled(rows, id) { SettledStays(rows, sys.rows, id); }
      if reading.SaysCommitted? { return Value; }
      return Threw(CommitFailed(reading.disposition));
    }

    /** The phase a finished priced call leaves its run in. */
    ghost predicate EndsAs(outcome: Outcome, phase: Phase) {
      match outcome
      case Value => phase.Returned?
      case Threw(why) => phase.Thrown? && phase.why == why
      case _ => false
    }

    /**
     * Run the work under a reserve of `cost`. `admitted` is the verdict of the gates that run
     * before anything is reserved. A refused or free call leaves the ledger alone; a priced call
     * is one protocol run from entry to end, so it ends as safely as every protocol run does. Its calls
     * are one reserve and then the `Course` of its outcome.
     */
    method WithCredits(user: User, cost: nat, queued: bool, admitted: bool) returns (outcome: Outcome, ghost r: nat)
      requires Valid()
      modifies this`sys, this`trace, this`calls
      ensures Valid() && old(trace) <= trace && calls <= old(calls) + SETTLE_ATTEMPTS + 4
      ensures outcome.Refused? <==> !admitted
      ensures outcome.Free? <==> admitted && cost == 0
      ensures outcome.Refused? || outcome.Free? ==> sys == old(sys)
      ensures !outcome.Refused? && !outcome.Free? ==>
                && r < |sys.runs| && sys.runs[r].user == user && sys.runs[r].cost == cost
                && EndsAs(outcome, sys.runs[r].phase) && SafelyEnded(sys.rows, sys.runs[r])
                && if outcome == Threw(NotReserved) then
                     calls == old(calls) + 1 && (choices(calls).fate == Delivered ==> Balance(sys.rows, user) < cost)
                   else ReserveOf(sys.runs[r].phase).Some?
                        && Course(outcome, queued, sys.rows, ReserveOf(sys.runs[r].phase).value, choices, old(calls) + 1, calls)
    {
      r := 0;
      if !admitted { return Refused, r; }
      if cost == 0 { return Free(choices(calls).ok), r; }
      outcome, r := RunPriced(user, cost, queued);
    }

    method RunPriced(user: User, cost: nat, queued: bool) returns (outcome: Outcome, ghost r: nat)
      requires Valid() && cost > 0
      modifies this`sys, this`trace, this`calls
      ensures Valid() && old(trace) <= trace && calls <= old(calls) + SETTLE_ATTEMPTS + 4
      ensures r < |sys.runs| && sys.runs[r].user == user && sys.runs[r].cost == cost
      ensures !outcome.Refused? && !outcome.Free? && EndsAs(outcome, sys.runs[r].phase) && SafelyEnded(sys.rows, sys.runs[r])
      ensures if outcome == Threw(NotReserved) then
                calls == old(calls) + 1 && (choices(calls).fate == Delivered ==> Balance(sys.rows, user) < cost)
              else ReserveOf(sys.runs[r].phase).Some?
                   && Course(outcome, queued, sys.rows, ReserveOf(sys.runs[r].phase).value, choices, old(calls) + 1, calls)
    {
      hide Replay, Inv, SafelyEnded, RunStep, Course, ReserveOf;
      var me := |sys.runs|;
      r := me;
      Act(Enter(user, cost, queued));
      var reserved := CallReserve(me);
      if reserved.None? {
        outcome := Threw(NotReserved);
      } else {
        outcome := RunReserved(me, reserved.value);
        CourseNamed(outcome, queued, sys.rows, reserved.value, choices, old(calls) + 1, calls);
      }
      EndsSafely(sys, me);
    }

    /** The reserve call. Only a delivered reserve is known to the program. */
    method CallReserve(r: nat) returns (reserved: Option<nat>)
      requires Valid() && r < |sys.runs| && sys.runs[r].phase.Start?
      modifies this`sys, this`trace, this`calls
      ensures Valid() && r < |sys.runs| && old(trace) <= trace && calls == old(calls) + 1
      ensures exists phase :: sys.runs[r] == old(sys.runs[r]).(phase := phase)
      ensures reserved.None? && choices(calls).fate == Delivered && old(sys).runs[r].cost > 0 ==>
                Balance(sys.rows, old(sys).runs[r].user) < old(sys).runs[r].cost
      ensures if reserved.None? then EndsAs(Threw(NotReserved), sys.runs[r].phase)
              else sys.runs[r].phase == if sys.runs[r].queued then Linking(reserved.value) else Working(reserved.value)
    {
      Yield(r);
      var c := choices(calls);
      var run, id := sys.runs[r], |sys.rows|;
      var answer := Reserve(sys.rows, run.user, run.cost, c.at);
      Act(Advance(r, c));
      assert sys.runs[r] == run.(phase := AfterReserve(run, id, answer, c.fate));
      return if answer.Ok? && c.fate == Delivered then Some(id) else None;
    }

    /** The guarded work once its reserve is held. */
    method RunReserved(r: nat, id: nat) returns (outcome: Outcome)
      requires Valid() && r < |sys.runs|
      requires sys.runs[r].phase == if sys.runs[r].queued then Linking(id) else Working(id)
      modifies this`sys, this`trace, this`calls
      ensures Valid() && r < |sys.runs| && old(trace) <= trace && calls <= old(calls) + SETTLE_ATTEMPTS + 3
      ensures ReserveOf(sys.runs[r].phase) == Some(id)
      ensures Course(outcome, old(sys).runs[r].queued, sys.rows, id, choices, old(calls), calls)
      ensures sys.runs[r].user == old(sys.runs[r].user) && sys.runs[r].cost == old(sys.runs[r].cost)
      ensures EndsAs(outcome, sys.runs[r].phase)
    {
      hide Inv, Released, Replay;
      if sys.runs[r].queued {
        Yield(r);
        var link := choices(calls);
        Act(Advance(r, link));
        if !link.ok {
          var _, _ := Settle(ReleaseRpc, r, id, LinkFailed);
          return Threw(LinkFailed);
        }
      }
      Yield(r);
      var work := choices(calls);
      Act(Advance(r, work));
      if !work.ok {
        var _, _ := Settle(ReleaseRpc, r, id, WorkFailed);
        return Threw(WorkFailed);
      }
      outcome := CommitSpend(r, id);
    }
  }
}
