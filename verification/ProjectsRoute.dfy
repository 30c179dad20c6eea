/**
 * `openTrackedProject` as the program runs it, one database statement at a time. Between any two of
 * its statements the adversary lets every other call act. Every execution is an execution of
 * `Projects`.
 */
module ProjectsRoute {
  import opened Hostnames
  import opened Network
  import opened Options
  import opened Projects

  datatype Read<+T> = Got(value: T) | Failed

  /** Some statement after the first number, up to the second, failed or lost its reply. */
  ghost predicate Troubled(fates: nat -> Fate, since: nat, until: nat) {
    exists n: nat :: since < n <= until && fates(n) != Delivered
  }

  class Route {
    var sys: System
    var statements: nat
    const others: nat -> seq<Label>
    const fates: nat -> Fate

    ghost const start: System
    ghost var trace: seq<Label>

    constructor (sys: System, others: nat -> seq<Label>, fates: nat -> Fate)
      ensures Valid() && this.sys == sys && start == sys && trace == []
    {
      this.sys := sys;
      this.others := others;
      this.fates := fates;
      statements, start, trace := 0, sys, [];
    }

    ghost predicate Valid()
      reads this
    {
      sys == Replay(start, trace)
    }

    method Do(act: Label)
      requires Valid()
      modifies this`sys, this`trace
      ensures Valid() && sys == Step(old(sys), act) && trace == old(trace) + [act]
    {
      sys := Step(sys, act);
      trace := trace + [act];
      assert trace[..|trace| - 1] == old(trace);
    }

    /** Everybody but call `c` acts, in the adversary's order. */
    method Yield(c: nat)
      requires Valid() && c < |sys.calls|
      modifies this`sys, this`trace, this`statements
      ensures Valid() && c < |sys.calls| && sys.calls[c] == old(sys.calls[c])
      ensures old(trace) <= trace && statements == old(statements) + 1
    {
      var acts := others(statements);
      statements := statements + 1;
      for i := 0 to |acts|
        invariant Valid() && c < |sys.calls| && sys.calls[c] == old(sys.calls[c])
        invariant old(trace) <= trace && statements == old(statements) + 1
      {
        if !(acts[i].Advance? && acts[i].call == c) { Do(acts[i]); }
      }
    }

    /** Look for the site's stored forms in turn; the row's archive mark is read with it. */
    method FindSameSiteProject(c: nat, user: nat, domain: string, ghost again: bool) returns (found: Read<Option<(nat, bool)>>)
      requires Valid() && c < |sys.calls| && sys.calls[c] == Call(user, domain, Probing(0, again))
      modifies this`sys, this`trace, this`statements
      ensures Valid() && old(trace) <= trace && c < |sys.calls| && statements >= old(statements)
      ensures found.Failed? ==> Troubled(fates, old(statements), statements)
      ensures found.Got? && found.value.Some? ==>
                found.value.value.0 < |sys.rows| && sys.rows[found.value.value.0].archived == found.value.value.1
      ensures sys.calls[c] == Call(user, domain,
                if found.Failed? then Done(Threw(DatabaseError))
                else if found.value.Some? then
                  (if found.value.value.1 then Restoring(found.value.value.0) else Done(Existing(found.value.value.0)))
                else if again then Done(Threw(NoRowFound))
                else Upserting)
    {
      hide Find, StripWww, Accepts, Replay;
      var forms := SameSite(domain);
      for form := 0 to |forms|
        invariant Valid() && old(trace) <= trace && c < |sys.calls| && statements >= old(statements)
        invariant form < |forms| ==> sys.calls[c] == Call(user, domain, Probing(form, again))
        invariant form == |forms| ==>
                    sys.calls[c] == Call(user, domain, if again then Done(Threw(NoRowFound)) else Upserting)
      {
        Yield(c);
        var fate := fates(statements);
        var row := Find(sys.rows, user, forms[form]);
        ghost var before := sys;
        Do(Advance(c, fate));
        if fate != Delivered { return Failed; }
        if row.Some? { return Got(Some((row.value, sys.rows[row.value].archived))); }
      }
      return Got(None);
    }

    /** A call that throws met a failing statement, and one that names a row leaves it active. */
    ghost predicate Told(outcome: Outcome, since: nat)
      reads this
    {
      match outcome
      case Threw(error) => error == DatabaseError ==> Troubled(fates, since, statements)
      case Created(id) => id < |sys.rows| && !sys.rows[id].archived
      case Existing(id) => id < |sys.rows| && !sys.rows[id].archived
      case Restored(id) => id < |sys.rows| && !sys.rows[id].archived
      case _ => true
    }

    /** Report the row that already holds the site, bringing it back from the archive first. */
    method ResolveExisting(c: nat, user: nat, domain: string, id: nat, archived: bool) returns (outcome: Outcome)
      requires Valid() && c < |sys.calls|
      requires sys.calls[c] == Call(user, domain, if archived then Restoring(id) else Done(Existing(id)))
      requires id < |sys.rows| && sys.rows[id].archived == archived
      modifies this`sys, this`trace, this`statements
      ensures Valid() && old(trace) <= trace && c < |sys.calls| && sys.calls[c] == Call(user, domain, Done(outcome))
      ensures !outcome.Refused? && statements >= old(statements) && Told(outcome, old(statements))
    {
      if !archived { return Existing(id); }
      Yield(c);
      var fate := fates(statements);
      var (_, matched) := Restore(sys.rows, user, id);
      Do(Advance(c, fate));
      if fate != Delivered { return Threw(DatabaseError); }
      return if matched then Restored(id) else NotRestored(id);
    }

    /**
     * Create the site's project, find it, or restore it. The call is one protocol run from entry to
     * end, so it ends as honestly as every run of the protocol does.
     */
    method OpenTrackedProject(user: nat, host: string) returns (outcome: Outcome, ghost c: nat)
      requires Valid() && Opening(start)
      modifies this`sys, this`trace, this`statements
      ensures Valid() && old(trace) <= trace && c < |sys.calls|
      ensures sys.calls[c] == Call(user, StripWww(host), Done(outcome))
      ensures outcome.Refused? <==> !Accepts(StripWww(host))
      ensures outcome != Threw(NoRowFound) && !outcome.NotRestored?
      ensures outcome.Created? ==> outcome.id < |sys.rows| && sys.rows[outcome.id].maker == Some(c)
      ensures outcome.Existing? || outcome.Restored? ==> OfSite(sys.rows, outcome.id, sys.calls[c])
      ensures Told(outcome, old(statements))
    {
      hide Replay, Find, StripWww, Opening;
      var me := |sys.calls|;
      c := me;
      Do(Enter(user, host));
      var domain := StripWww(host);
      if !Accepts(domain) { return Refused, c; }
      outcome := Open(me, user, domain);
      CallsEndHonestly(start, trace, me);
    }

    method Open(c: nat, user: nat, domain: string) returns (outcome: Outcome)
      requires Valid() && c < |sys.calls| && sys.calls[c] == Call(user, domain, Probing(0, false))
      modifies this`sys, this`trace, this`statements
      ensures Valid() && old(trace) <= trace && c < |sys.calls| && sys.calls[c] == Call(user, domain, Done(outcome))
      ensures !outcome.Refused? && Told(outcome, old(statements))
    {
      hide Replay, Find, StripWww, Accepts;
      var existing := FindSameSiteProject(c, user, domain, false);
      if existing.Failed? { return Threw(DatabaseError); }
      if existing.value.Some? {
        outcome := ResolveExisting(c, user, domain, existing.value.value.0, existing.value.value.1);
        return;
      }
      Yield(c);
      var fate := fates(statements);
      var (_, inserted) := Upsert(sys.rows, c, sys.calls[c]);
      Do(Advance(c, fate));
      if fate != Delivered { return Threw(DatabaseError); }
      if inserted.Some? { return Created(inserted.value); }
      var winner := FindSameSiteProject(c, user, domain, true);
      if winner.Failed? { return Threw(DatabaseError); }
      if winner.value.None? { return Threw(NoRowFound); }
      outcome := ResolveExisting(c, user, domain, winner.value.value.0, winner.value.value.1);
    }
  }
}
