/**
 * Any number of credit-guarded runs over one ledger, interleaved one database call at a time with
 * each other, with grants and with the reconciliation sweep. Replies may be lost and calls may
 * fail; a call that failed has either already been applied or never will be.
 */
module CreditProtocol {
  import opened CreditLedger
  import opened Network
  import opened Options

  const SETTLE_ATTEMPTS: nat := 3

  datatype Disposition = Refunded | Open | Unknown

  datatype Failure = NotReserved | LinkFailed | WorkFailed | CommitFailed(disposition: Disposition)

  /** Where one run of the guard stands. A run ends returned or thrown. */
  datatype Phase =
    | Start
    | Linking(id: nat)
    | Working(id: nat)
    | Committing(id: nat, attempt: nat)
    | Reading(id: nat)
    | Releasing(id: nat, attempt: nat, why: Failure)
    | Returned(id: nat)
    | Thrown(reserve: Option<nat>, why: Failure)

  /** A priced run: `queued` runs also record their reserve on a jobs row. */
  datatype Run = Run(user: User, cost: int, queued: bool, phase: Phase)

  datatype System = System(rows: Ledger, runs: seq<Run>)

  /** The adversary's choices for one step: the call's fate, and whether the run's own work succeeds. */
  datatype Choice = Choice(fate: Fate, ok: bool, at: int)

  datatype Label =
    | Advance(run: nat, choice: Choice)
    | Sweep(id: nat, fate: Fate, at: int)
    | Deposit(user: User, amount: nat, at: int)
    | Enter(user: User, cost: int, queued: bool)

  // --- One call -----------------------------------------------------------------------------

  datatype Reply = Confirmed | Failed(terminal: bool)

  function RowsAfter(rows: Ledger, answer: Answer, fate: Fate): Ledger {
    if answer.Ok? && fate != NeverApplied then answer.rows else rows
  }

  /** Only a delivered "already settled" or "unknown reserve" is worth no retry. */
  function ReplyOf(answer: Answer, fate: Fate): Reply {
    if fate != Delivered then Failed(false)
    else if answer.Ok? then Confirmed
    else Failed(answer.error.AlreadySettled? || answer.error.UnknownReserve?)
  }

  function AfterCommit(id: nat, attempt: nat, reply: Reply): Phase {
    if reply.Confirmed? then Returned(id)
    else if reply.terminal || attempt >= SETTLE_ATTEMPTS then Reading(id)
    else Committing(id, attempt + 1)
  }

  function AfterRelease(id: nat, attempt: nat, why: Failure, reply: Reply): Phase {
    if reply.Confirmed? || reply.terminal || attempt >= SETTLE_ATTEMPTS then Thrown(Some(id), why)
    else Releasing(id, attempt + 1, why)
  }

  function AfterRead(rows: Ledger, id: nat, ok: bool): Phase {
    if !ok then Thrown(Some(id), CommitFailed(Unknown))
    else if HasRow(rows, SpendCommit, id) then Returned(id)
    else if HasRow(rows, SpendRelease, id) then Thrown(Some(id), CommitFailed(Refunded))
    else Thrown(Some(id), CommitFailed(Open))
  }

  function AfterReserve(run: Run, id: nat, answer: Answer, fate: Fate): Phase {
    if answer.Err? || fate == NeverApplied then Thrown(None, NotReserved)
    else if fate == ReplyLost then Thrown(Some(id), NotReserved)
    else if run.queued then Linking(id)
    else Working(id)
  }

  /** One step of one run: a new ledger and the phase it moves to. */
  function RunStep(rows: Ledger, run: Run, c: Choice): (Ledger, Phase) {
    match run.phase
    case Start =>
      var answer := Reserve(rows, run.user, run.cost, c.at);
      (RowsAfter(rows, answer, c.fate), AfterReserve(run, |rows|, answer, c.fate))
    case Linking(id) =>
      (rows, if c.ok then Working(id) else Releasing(id, 1, LinkFailed))
    case Working(id) =>
      (rows, if c.ok then Committing(id, 1) else Releasing(id, 1, WorkFailed))
    case Committing(id, attempt) =>
      var answer := Commit(rows, id, c.at);
      (RowsAfter(rows, answer, c.fate), AfterCommit(id, attempt, ReplyOf(answer, c.fate)))
    case Reading(id) =>
      (rows, AfterRead(rows, id, c.ok))
    case Releasing(id, attempt, why) =>
      var answer := Release(rows, id, c.at);
      (RowsAfter(rows, answer, c.fate), AfterRelease(id, attempt, why, ReplyOf(answer, c.fate)))
    case Returned(_) => (rows, run.phase)
    case Thrown(_, _) => (rows, run.phase)
  }

  function Step(sys: System, act: Label): System {
    match act
    case Advance(r, c) =>
      if r >= |sys.runs| then sys
      else
        var (rows, phase) := RunStep(sys.rows, sys.runs[r], c);
        System(rows, sys.runs[r := sys.runs[r].(phase := phase)])
    case Sweep(id, fate, at) => sys.(rows := RowsAfter(sys.rows, Release(sys.rows, id, at), fate))
    case Deposit(user, amount, at) => sys.(rows := Credit(sys.rows, user, amount, at))
    case Enter(user, cost, queued) => sys.(runs := sys.runs + [Run(user, cost, queued, Start)])
  }

  function Replay(sys: System, labels: seq<Label>): System
    decreases |labels|
  {
    if labels == [] then sys else Step(Replay(sys, labels[..|labels| - 1]), labels[|labels| - 1])
  }

  // --- The invariant ---------------------------------------------------------------------------

  /** The reserve a run has taken, if any. */
  function ReserveOf(phase: Phase): Option<nat> {
    match phase
    case Start => None
    case Linking(id) => Some(id)
    case Working(id) => Some(id)
    case Committing(id, _) => Some(id)
    case Reading(id) => Some(id)
    case Releasing(id, _, _) => Some(id)
    case Returned(id) => Some(id)
    case Thrown(reserve, _) => reserve
  }

  /** In these phases the run has never asked for a commit, or knows that none was applied. */
  predicate Uncommitted(phase: Phase) {
    match phase
    case Linking(_) => true
    case Working(_) => true
    case Committing(_, attempt) => attempt == 1
    case Releasing(_, _, _) => true
    case Thrown(_, why) => why != CommitFailed(Unknown)
    case _ => false
  }

  ghost predicate RunSound(rows: Ledger, run: Run) {
    match ReserveOf(run.phase)
    case None => run.phase.Start? || run.phase == Thrown(None, NotReserved)
    case Some(id) =>
      && IsReserve(rows, id) && rows[id].user == run.user && rows[id].delta == -run.cost
      && (Uncommitted(run.phase) ==> !HasRow(rows, SpendCommit, id))
      && (run.phase.Returned? ==> HasRow(rows, SpendCommit, id))
      && (run.phase == Thrown(Some(id), CommitFailed(Refunded)) ==> HasRow(rows, SpendRelease, id))
      && (run.phase.Committing? ==> run.phase.attempt >= 1)
      && (run.phase.Releasing? ==> !run.phase.why.CommitFailed?)
  }

  ghost predicate Inv(sys: System) {
    && Sound(sys.rows)
    && (forall r :: 0 <= r < |sys.runs| ==> RunSound(sys.rows, sys.runs[r]))
    && (forall r, q :: 0 <= r < q < |sys.runs| && ReserveOf(sys.runs[r].phase).Some? ==>
          ReserveOf(sys.runs[r].phase) != ReserveOf(sys.runs[q].phase))
  }

  /** A run is undisturbed by any row that does not commit its own reserve. */
  lemma RunSoundAppend(rows: Ledger, row: Row, run: Run)
    requires RunSound(rows, run)
    requires row.kind.SpendCommit? ==> ReserveOf(run.phase) != Some(row.reserveId)
    ensures RunSound(rows + [row], run)
  {
    HasRowAppend(rows, row);
  }

  lemma RunSoundAfter(rows: Ledger, answer: Answer, row: Row, fate: Fate, run: Run)
    requires RunSound(rows, run) && (answer.Ok? ==> answer.rows == rows + [row])
    requires row.kind.SpendCommit? ==> ReserveOf(run.phase) != Some(row.reserveId)
    ensures RunSound(RowsAfter(rows, answer, fate), run)
  {
    RunSoundAppend(rows, row, run);
  }

  lemma ReserveStep(rows: Ledger, run: Run, c: Choice)
    requires Sound(rows) && run.phase.Start?
    ensures var (rows', phase) := RunStep(rows, run, c);
            Sound(rows') && rows <= rows' && RunSound(rows', run.(phase := phase)) && ReserveOf(phase) in {None, Some(|rows|)}
  {
    if Reserve(rows, run.user, run.cost, c.at).Ok? {
      ReserveSound(rows, run.user, run.cost, c.at);
      HasRowAppend(rows, Row(run.user, -run.cost, SpendReserve, |rows|, c.at));
      FreshReserveUnsettled(rows);
    }
  }

  lemma CommitStep(rows: Ledger, run: Run, c: Choice)
    requires Sound(rows) && RunSound(rows, run) && run.phase.Committing?
    ensures var (rows', phase) := RunStep(rows, run, c);
            Sound(rows') && rows <= rows' && RunSound(rows', run.(phase := phase)) && ReserveOf(phase) == ReserveOf(run.phase)
  {
    var id := run.phase.id;
    if Commit(rows, id, c.at).Ok? {
      CommitSound(rows, id, c.at);
      HasRowAppend(rows, Row(rows[id].user, 0, SpendCommit, id, c.at));
    }
  }

  lemma ReleaseStep(rows: Ledger, run: Run, c: Choice)
    requires Sound(rows) && RunSound(rows, run) && run.phase.Releasing?
    ensures var (rows', phase) := RunStep(rows, run, c);
            Sound(rows') && rows <= rows' && RunSound(rows', run.(phase := phase)) && ReserveOf(phase) == ReserveOf(run.phase)
  {
    var id := run.phase.id;
    if Release(rows, id, c.at).Ok? {
      ReleaseSound(rows, id, c.at);
      HasRowAppend(rows, Row(rows[id].user, -rows[id].delta, SpendRelease, id, c.at));
    }
  }

  /** The step of one run: its own new phase is sound, and a reserve it takes is a new one. */
  lemma OwnStep(rows: Ledger, run: Run, c: Choice)
    requires Sound(rows) && RunSound(rows, run)
    ensures var (rows', phase) := RunStep(rows, run, c);
            && Sound(rows') && rows <= rows' && RunSound(rows', run.(phase := phase))
            && (ReserveOf(phase) == ReserveOf(run.phase) || (run.phase.Start? && ReserveOf(phase) == Some(|rows|)))
  {
    match run.phase
    case Start => ReserveStep(rows, run, c);
    case Committing(_, _) => CommitStep(rows, run, c);
    case Releasing(_, _, _) => ReleaseStep(rows, run, c);
    case _ =>
  }

  lemma FreshReserveUnsettled(rows: Ledger)
    requires Sound(rows)
    ensures !Settled(rows, |rows|)
  {
    forall j | 0 <= j < |rows| ensures !Settles(rows[j], |rows|) { assert RowSound(rows, j); }
  }

  lemma OtherStep(rows: Ledger, run: Run, c: Choice, other: Run)
    requires Sound(rows) && RunSound(rows, run) && RunSound(rows, other)
    requires ReserveOf(run.phase).Some? ==> ReserveOf(run.phase) != ReserveOf(other.phase)
    ensures RunSound(RunStep(rows, run, c).0, other)
  {
    match run.phase
    case Start =>
      RunSoundAfter(rows, Reserve(rows, run.user, run.cost, c.at), Row(run.user, -run.cost, SpendReserve, |rows|, c.at), c.fate, other);
    case Committing(id, attempt) =>
      RunSoundAfter(rows, Commit(rows, id, c.at), Row(rows[id].user, 0, SpendCommit, id, c.at), c.fate, other);
    case Releasing(id, attempt, why) =>
      RunSoundAfter(rows, Release(rows, id, c.at), Row(rows[id].user, -rows[id].delta, SpendRelease, id, c.at), c.fate, other);
    case _ =>
  }

  lemma StepInv(sys: System, act: Label)
    requires Inv(sys)
    ensures Inv(Step(sys, act)) && sys.rows <= Step(sys, act).rows
  {
    var next := Step(sys, act);
    match act
    case Advance(r, c) =>
      if r < |sys.runs| {
        OwnStep(sys.rows, sys.runs[r], c);
        forall q | 0 <= q < |next.runs| ensures RunSound(next.rows, next.runs[q]) {
          if q != r { OtherStep(sys.rows, sys.runs[r], c, sys.runs[q]); }
        }
        forall q | 0 <= q < |sys.runs| ensures ReserveOf(sys.runs[q].phase) != Some(|sys.rows|) {
          assert RunSound(sys.rows, sys.runs[q]);
        }
      }
    case Sweep(id, fate, at) =>
      var answer := Release(sys.rows, id, at);
      if answer.Ok? {
        ReleaseSound(sys.rows, id, at);
        forall q | 0 <= q < |next.runs| ensures RunSound(next.rows, next.runs[q]) {
          RunSoundAfter(sys.rows, answer, Row(sys.rows[id].user, -sys.rows[id].delta, SpendRelease, id, at), fate, sys.runs[q]);
        }
      }
    case Deposit(user, amount, at) =>
      CreditSound(sys.rows, user, amount, at);
      forall q | 0 <= q < |next.runs| ensures RunSound(next.rows, next.runs[q]) {
        RunSoundAppend(sys.rows, Row(user, amount, Grant, 0, at), sys.runs[q]);
      }
    case Enter(user, cost, queued) =>
      forall q | 0 <= q < |next.runs| ensures RunSound(next.rows, next.runs[q]) {
        if q < |sys.runs| { assert RunSound(sys.rows, sys.runs[q]); }
      }
  }

  lemma {:induction false} ReplayInv(sys: System, labels: seq<Label>)
    requires Inv(sys)
    ensures Inv(Replay(sys, labels)) && sys.rows <= Replay(sys, labels).rows
    decreases |labels|
  {
    if labels != [] {
      var front := labels[..|labels| - 1];
      ReplayInv(sys, front);
      StepInv(Replay(sys, front), labels[|labels| - 1]);
    }
  }

  lemma ReplayConcat(sys: System, a: seq<Label>, b: seq<Label>)
    ensures Replay(sys, a + b) == Replay(Replay(sys, a), b)
    decreases |b|
  {
    if b == [] {
      assert a + b == a;
    } else {
      assert (a + b)[..|a + b| - 1] == a + b[..|b| - 1];
      ReplayConcat(sys, a, b[..|b| - 1]);
    }
  }

  // --- What a reserve does to the balance -----------------------------------------------------

  /** The sum of all rows of one reserve: the debit and whatever settled it. */
  function Net(rows: Ledger, id: nat): int {
    if rows == [] then 0
    else
      var last := rows[|rows| - 1];
      Net(rows[..|rows| - 1], id)
      + (if last.reserveId == id && (last.kind.SpendReserve? || last.kind.SpendCommit? || last.kind.SpendRelease?)
         then last.delta else 0)
  }

  lemma {:induction false} NetIsCostOrNothing(rows: Ledger, id: nat)
    requires Sound(rows)
    ensures Net(rows, id) == if IsReserve(rows, id) && !HasRow(rows, SpendRelease, id) then rows[id].delta else 0
  {
    if rows != [] {
      var front, last := rows[..|rows| - 1], rows[|rows| - 1];
      SoundPrefix(rows);
      NetIsCostOrNothing(front, id);
      assert rows == front + [last];
      assert RowSound(rows, |rows| - 1);
      HasRowAppend(front, last);
      if last.kind.SpendRelease? { LastSettlesFirst(rows); }
      FreshReserveUnsettled(front);
    }
  }

  /** Exactly one row settles the reserve, and it is of the given kind. */
  ghost predicate SettledOnceBy(rows: Ledger, id: nat, kind: Kind) {
    exists j :: 0 <= j < |rows| && rows[j].kind == kind && Settles(rows[j], id)
                && forall k :: 0 <= k < |rows| && Settles(rows[k], id) ==> k == j
  }

  lemma OnlyOneSettles(rows: Ledger, id: nat, kind: Kind)
    requires Sound(rows) && HasRow(rows, kind, id) && (kind == SpendCommit || kind == SpendRelease)
    ensures SettledOnceBy(rows, id, kind)
  {
    var j :| 0 <= j < |rows| && rows[j].kind == kind && rows[j].reserveId == id;
    assert Settles(rows[j], id);
  }

  /** What the ledger shows of a finished run, and always will. */
  ghost predicate SafelyEnded(rows: Ledger, run: Run) {
    match run.phase
    case Returned(id) => SettledOnceBy(rows, id, SpendCommit) && Net(rows, id) == -run.cost
    case Thrown(None, _) => true
    case Thrown(Some(id), why) =>
      && (Settled(rows, id) ==> Net(rows, id) == 0 || Net(rows, id) == -run.cost)
      && (why != CommitFailed(Unknown) ==>
            !HasRow(rows, SpendCommit, id) && (Settled(rows, id) ==> SettledOnceBy(rows, id, SpendRelease) && Net(rows, id) == 0))
      && (why == CommitFailed(Refunded) ==> SettledOnceBy(rows, id, SpendRelease))
    case _ => true
  }

  /**
   * Settlement safety, in every interleaving with lost replies, failures, retries and the sweep:
   * no reserve is settled twice. A run that returned has exactly one settling row, a commit, and
   * costs its price. A run that threw with its disposition known has no commit, now or in any
   * later state, so once its reserve is settled it costs nothing; and even with the disposition
   * unknown it costs its price or nothing.
   */
  lemma SettlementSafety(sys: System, labels: seq<Label>)
    requires Inv(sys)
    ensures var end := Replay(sys, labels);
            && (forall i, j, id :: 0 <= i < j < |end.rows| && Settles(end.rows[i], id) ==> !Settles(end.rows[j], id))
            && (forall r :: 0 <= r < |end.runs| ==> SafelyEnded(end.rows, end.runs[r]))
  {
    ReplayInv(sys, labels);
    var end := Replay(sys, labels);
    forall r | 0 <= r < |end.runs| ensures SafelyEnded(end.rows, end.runs[r]) {
      SoundEnd(end.rows, end.runs[r]);
    }
  }

  lemma SoundEnd(rows: Ledger, run: Run)
    requires Sound(rows) && RunSound(rows, run)
    ensures SafelyEnded(rows, run)
  {
    match ReserveOf(run.phase)
    case None =>
    case Some(id) =>
      NetIsCostOrNothing(rows, id);
      if HasRow(rows, SpendCommit, id) {
        OnlyOneSettles(rows, id, SpendCommit);
        NotBoth(rows, id);
      } else if HasRow(rows, SpendRelease, id) {
        OnlyOneSettles(rows, id, SpendRelease);
      }
  }

  /** A release that reaches the ledger leaves the reserve released, by itself or by whoever came first. */
  lemma ReleaseApplied(rows: Ledger, run: Run, c: Choice)
    requires Sound(rows) && RunSound(rows, run) && run.phase.Releasing? && c.fate != NeverApplied
    ensures HasRow(RunStep(rows, run, c).0, SpendRelease, run.phase.id)
  {
    var id := run.phase.id;
    if Release(rows, id, c.at).Ok? {
      HasRowAppend(rows, Row(rows[id].user, -rows[id].delta, SpendRelease, id, c.at));
    }
  }

  /** A commit that reaches the ledger leaves the reserve settled, by itself or by whoever came first. */
  lemma CommitApplied(rows: Ledger, run: Run, c: Choice)
    requires Sound(rows) && RunSound(rows, run) && run.phase.Committing? && c.fate != NeverApplied
    ensures Settled(RunStep(rows, run, c).0, run.phase.id)
  {
    var id := run.phase.id;
    if Commit(rows, id, c.at).Ok? {
      HasRowAppend(rows, Row(rows[id].user, 0, SpendCommit, id, c.at));
    }
  }

  lemma SettledStays(rows: Ledger, more: Ledger, id: nat)
    requires Settled(rows, id) && rows <= more
    ensures Settled(more, id)
  {
    HasRowGrows(rows, more);
  }

  lemma HasRowStays(rows: Ledger, more: Ledger, kind: Kind, id: nat)
    requires HasRow(rows, kind, id) && rows <= more
    ensures HasRow(more, kind, id)
  {
    var j :| 0 <= j < |rows| && rows[j].kind == kind && rows[j].reserveId == id;
    assert more[j] == rows[j];
  }

  predicate KnownThrow(phase: Phase, id: nat) {
    phase.Thrown? && phase.reserve == Some(id) && phase.why != CommitFailed(Unknown)
  }

  /**
   * The sweep closes every open reserve it reaches; and it refunds the reserve of a run that threw
   * with its disposition known, which is what such a run is told will happen.
   */
  lemma SweepSettles(sys: System, id: nat, fate: Fate, at: int)
    requires Inv(sys) && IsReserve(sys.rows, id) && fate != NeverApplied
    ensures var swept := Step(sys, Sweep(id, fate, at)).rows;
            && Settled(swept, id)
            && (forall r | 0 <= r < |sys.runs| && KnownThrow(sys.runs[r].phase, id) :: SettledOnceBy(swept, id, SpendRelease))
  {
    if !Settled(sys.rows, id) {
      HasRowAppend(sys.rows, Row(sys.rows[id].user, -sys.rows[id].delta, SpendRelease, id, at));
    }
    var swept := Step(sys, Sweep(id, fate, at));
    StepInv(sys, Sweep(id, fate, at));
    forall r | 0 <= r < |sys.runs| && KnownThrow(sys.runs[r].phase, id)
      ensures SettledOnceBy(swept.rows, id, SpendRelease)
    {
      SoundEnd(swept.rows, swept.runs[r]);
    }
  }
}
