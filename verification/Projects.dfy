/**
 * Opening a tracked project: look for the site under its canonical host and then under its `www.`
 * twin, insert it with a conflict-ignoring upsert if neither is there, read the winner back if the
 * upsert lost a race, and bring an archived row back. Any number of calls interleave, one
 * database statement at a time; any statement may fail, applied or not; rows are never deleted.
 */
module Projects {
  import opened Hostnames
  import opened Network
  import opened Options

  /** `maker` is the call that inserted the row; the row's id is its position. */
  datatype Row = Row(user: nat, domain: string, archived: bool, maker: Option<nat>)

  datatype Error = DatabaseError | NoRowFound

  datatype Outcome =
    | Refused
    | Created(id: nat)
    | Existing(id: nat)
    | Restored(id: nat)
    | NotRestored(id: nat)
    | Threw(error: Error)

  /** `form` counts the stored forms already looked for; `again` marks the read-back after a conflict. */
  datatype Phase =
    | Probing(form: nat, again: bool)
    | Upserting
    | Restoring(id: nat)
    | Done(outcome: Outcome)

  datatype Call = Call(user: nat, domain: string, phase: Phase)

  datatype System = System(rows: seq<Row>, calls: seq<Call>)

  datatype Label =
    | Enter(user: nat, host: string)
    | Advance(call: nat, fate: Fate)
    | Archive(id: nat)

  predicate Is(row: Row, user: nat, domain: string) { row.user == user && row.domain == domain }

  function Find(rows: seq<Row>, user: nat, domain: string): (id: Option<nat>)
    ensures id.Some? ==> id.value < |rows| && Is(rows[id.value], user, domain)
    ensures id.None? ==> forall i :: 0 <= i < |rows| ==> !Is(rows[i], user, domain)
  {
    if rows == [] then None
    else if Is(rows[|rows| - 1], user, domain) then Some(|rows| - 1)
    else Find(rows[..|rows| - 1], user, domain)
  }

  /** The domain gate runs first. */
  function Entered(user: nat, host: string): Call {
    var domain := StripWww(host);
    Call(user, domain, if Accepts(domain) then Probing(0, false) else Done(Refused))
  }

  function Resolve(rows: seq<Row>, id: nat): Phase
    requires id < |rows|
  {
    if rows[id].archived then Restoring(id) else Done(Existing(id))
  }

  function AfterProbe(rows: seq<Row>, call: Call, form: nat, again: bool): Phase
    requires form < 2
  {
    var found := Find(rows, call.user, SameSite(call.domain)[form]);
    if found.Some? then Resolve(rows, found.value)
    else if form == 0 then Probing(1, again)
    else if again then Done(Threw(NoRowFound))
    else Upserting
  }

  /** ON CONFLICT DO NOTHING: a row comes back only when this statement inserted it. */
  function Upsert(rows: seq<Row>, c: nat, call: Call): (seq<Row>, Option<nat>) {
    if Find(rows, call.user, call.domain).Some? then (rows, None)
    else (rows + [Row(call.user, call.domain, false, Some(c))], Some(|rows|))
  }

  function Restore(rows: seq<Row>, user: nat, id: nat): (seq<Row>, bool) {
    if id < |rows| && rows[id].user == user then (rows[id := rows[id].(archived := false)], true) else (rows, false)
  }

  function StepCall(rows: seq<Row>, c: nat, call: Call, fate: Fate): (seq<Row>, Phase) {
    match call.phase
    case Probing(form, again) =>
      if form >= 2 then (rows, call.phase)
      else if fate != Delivered then (rows, Done(Threw(DatabaseError)))
      else (rows, AfterProbe(rows, call, form, again))
    case Upserting =>
      var (rows', inserted) := Upsert(rows, c, call);
      (if fate == NeverApplied then rows else rows',
       if fate != Delivered then Done(Threw(DatabaseError))
       else if inserted.Some? then Done(Created(inserted.value))
       else Probing(0, true))
    case Restoring(id) =>
      var (rows', matched) := Restore(rows, call.user, id);
      (if fate == NeverApplied then rows else rows',
       if fate != Delivered then Done(Threw(DatabaseError))
       else if matched then Done(Restored(id))
       else Done(NotRestored(id)))
    case Done(_) => (rows, call.phase)
  }

  function Step(sys: System, act: Label): System {
    match act
    case Enter(user, host) => sys.(calls := sys.calls + [Entered(user, host)])
    case Advance(c, fate) =>
      if c >= |sys.calls| then sys
      else
        var (rows, phase) := StepCall(sys.rows, c, sys.calls[c], fate);
        System(rows, sys.calls[c := sys.calls[c].(phase := phase)])
    case Archive(id) =>
      if id >= |sys.rows| then sys else sys.(rows := sys.rows[id := sys.rows[id].(archived := true)])
  }

  function Replay(start: System, acts: seq<Label>): System
    decreases |acts|
  {
    if acts == [] then start else Step(Replay(start, acts[..|acts| - 1]), acts[|acts| - 1])
  }

  // --- What every run keeps ------------------------------------------------------------------------

  /** The unique constraint on the table. */
  ghost predicate Unique(rows: seq<Row>) {
    forall i, j :: 0 <= i < j < |rows| ==> !(rows[i].user == rows[j].user && rows[i].domain == rows[j].domain)
  }

  /** Rows stay, and keep everything but their archive mark. */
  ghost predicate Grows(rows: seq<Row>, rows': seq<Row>) {
    |rows| <= |rows'| && forall i :: 0 <= i < |rows| ==> rows'[i].(archived := rows[i].archived) == rows[i]
  }

  ghost predicate CallSound(rows: seq<Row>, c: nat, call: Call) { IsPlain(call.domain) && PhaseSound(rows, c, call) }

  ghost predicate PhaseSound(rows: seq<Row>, c: nat, call: Call) {
    match call.phase
    case Probing(form, again) =>
      form < 2 && (again ==> Find(rows, call.user, call.domain).Some? && (form == 1 ==> call.domain != SameSite(call.domain)[0]))
    case Upserting => true
    case Restoring(id) => OfSite(rows, id, call)
    case Done(outcome) =>
      match outcome
      case Created(id) => id < |rows| && rows[id].maker == Some(c) && Is(rows[id], call.user, call.domain)
      case Existing(id) => OfSite(rows, id, call)
      case Restored(id) => OfSite(rows, id, call)
      case NotRestored(_) => false
      case Threw(error) => error == DatabaseError
      case Refused => true
  }

  ghost predicate OfSite(rows: seq<Row>, id: nat, call: Call) {
    id < |rows| && rows[id].user == call.user && rows[id].domain in SameSite(call.domain)
  }

  /** A row some call inserted is that call's own, and nobody else reports having created it. */
  ghost predicate RowSound(rows: seq<Row>, calls: seq<Call>, id: nat)
    requires id < |rows|
  {
    rows[id].maker.Some? ==>
      var c := rows[id].maker.value;
      c < |calls| && (calls[c].phase == Done(Created(id)) || calls[c].phase == Done(Threw(DatabaseError)))
  }

  ghost predicate Inv(sys: System) {
    && Unique(sys.rows)
    && (forall c :: 0 <= c < |sys.calls| ==> CallSound(sys.rows, c, sys.calls[c]))
    && (forall id :: 0 <= id < |sys.rows| ==> RowSound(sys.rows, sys.calls, id))
  }

  /** Growth keeps what a call relies on. */
  lemma CallFrame(rows: seq<Row>, rows': seq<Row>, c: nat, call: Call)
    requires CallSound(rows, c, call) && Grows(rows, rows')
    ensures CallSound(rows', c, call)
  {
    hide StripWww, Accepts;
    if call.phase.Probing? && call.phase.again {
      FindFrame(rows, rows', call.user, call.domain);
    }
  }

  lemma FindFrame(rows: seq<Row>, rows': seq<Row>, user: nat, domain: string)
    requires Grows(rows, rows') && Find(rows, user, domain).Some?
    ensures Find(rows', user, domain).Some?
  {
    var i := Find(rows, user, domain).value;
    assert Is(rows'[i], user, domain) by { assert rows'[i].(archived := rows[i].archived) == rows[i]; }
  }

  lemma StepCallSound(rows: seq<Row>, c: nat, call: Call, fate: Fate)
    requires Unique(rows) && CallSound(rows, c, call)
    ensures var (rows', phase) := StepCall(rows, c, call, fate);
            Unique(rows') && Grows(rows, rows') && CallSound(rows', c, call.(phase := phase))
  {
    hide StripWww, Accepts, Find, IsPlain;
    SiteContainsDomain(call.domain);
  }

  lemma AdvanceInv(sys: System, c: nat, fate: Fate)
    requires Inv(sys)
    ensures Inv(Step(sys, Advance(c, fate))) && Grows(sys.rows, Step(sys, Advance(c, fate)).rows)
  {
    hide CallSound, Find, AfterProbe;
    if c < |sys.calls| {
      var next := Step(sys, Advance(c, fate));
      var call := sys.calls[c];
      StepCallSound(sys.rows, c, call, fate);
      forall d | 0 <= d < |next.calls| ensures CallSound(next.rows, d, next.calls[d]) {
        if d != c { CallFrame(sys.rows, next.rows, d, sys.calls[d]); }
      }
      forall id | 0 <= id < |next.rows| ensures RowSound(next.rows, next.calls, id) {
        if id < |sys.rows| { assert RowSound(sys.rows, sys.calls, id); }
      }
    }
  }

  lemma StepInv(sys: System, act: Label)
    requires Inv(sys)
    ensures Inv(Step(sys, act)) && Grows(sys.rows, Step(sys, act).rows)
  {
    hide CallSound, Find, StepCall, StripWww, Accepts;
    var next := Step(sys, act);
    match act
    case Advance(c, fate) => AdvanceInv(sys, c, fate);
    case Enter(user, host) =>
      EnterSound(sys.rows, |sys.calls|, user, host);
      forall id | 0 <= id < |next.rows| ensures RowSound(next.rows, next.calls, id) {
        assert RowSound(sys.rows, sys.calls, id);
      }
    case Archive(id) =>
      forall d | 0 <= d < |next.calls| ensures CallSound(next.rows, d, next.calls[d]) {
        CallFrame(sys.rows, next.rows, d, sys.calls[d]);
      }
      forall id | 0 <= id < |next.rows| ensures RowSound(next.rows, next.calls, id) {
        assert RowSound(sys.rows, sys.calls, id);
      }
  }

  lemma EnterSound(rows: seq<Row>, c: nat, user: nat, host: string)
    ensures CallSound(rows, c, Entered(user, host))
  {
    hide StripWww, Accepts, IsPlain;
    StripWwwPlain(host);
  }

  lemma {:induction false} ReplayInv(start: System, acts: seq<Label>)
    requires Inv(start)
    ensures Inv(Replay(start, acts)) && Grows(start.rows, Replay(start, acts).rows)
    decreases |acts|
  {
    hide Inv, Step;
    if acts != [] {
      ReplayInv(start, acts[..|acts| - 1]);
      StepInv(Replay(start, acts[..|acts| - 1]), acts[|acts| - 1]);
    }
  }

  /** A table as the calls find it: rows of earlier days and nobody at work. */
  ghost predicate Opening(start: System) {
    Unique(start.rows) && start.calls == [] && forall i :: 0 <= i < |start.rows| ==> start.rows[i].maker.None?
  }

  /**
   * How calls end. The "no existing row was found" throw and the "nothing was changed" refusal are
   * unreachable; a row is reported created by the one call that inserted it, unless that call's
   * reply was lost, and by no other; a reused row is the caller's own and of the caller's site.
   */
  lemma CallsEndHonestly(start: System, acts: seq<Label>, c: nat)
    requires Opening(start) && c < |Replay(start, acts).calls|
    ensures var end := Replay(start, acts);
            && end.calls[c].phase != Done(Threw(NoRowFound))
            && (forall id: nat :: end.calls[c].phase != Done(NotRestored(id)))
            && (forall id: nat :: end.calls[c].phase == Done(Created(id)) ==> id < |end.rows| && end.rows[id].maker == Some(c))
            && (forall id: nat :: id < |end.rows| && end.rows[id].maker == Some(c) ==>
                  end.calls[c].phase in {Done(Created(id)), Done(Threw(DatabaseError))})
            && (forall id: nat :: end.calls[c].phase in {Done(Existing(id)), Done(Restored(id))} ==> OfSite(end.rows, id, end.calls[c]))
  {
    ReplayInv(start, acts);
    var end := Replay(start, acts);
    assert CallSound(end.rows, c, end.calls[c]);
    forall id: nat | id < |end.rows| && end.rows[id].maker == Some(c)
      ensures end.calls[c].phase in {Done(Created(id)), Done(Threw(DatabaseError))}
    {
      assert RowSound(end.rows, end.calls, id);
    }
  }

  // --- One row per site ----------------------------------------------------------------------------

  predicate InSite(row: Row, user: nat, site: string) { row.user == user && row.domain in {site, WWW + site} }

  ghost predicate AtMostOne(rows: seq<Row>, user: nat, site: string) {
    forall i, j :: 0 <= i < j < |rows| ==> !(InSite(rows[i], user, site) && InSite(rows[j], user, site))
  }

  ghost predicate SiteOpen(rows: seq<Row>, user: nat, site: string) {
    exists i :: 0 <= i < |rows| && InSite(rows[i], user, site)
  }

  /** While row `kept` is the site's only row, no call for the site can reach the insert. */
  ghost predicate Held(sys: System, user: nat, site: string, kept: nat) {
    && kept < |sys.rows| && InSite(sys.rows[kept], user, site)
    && (forall i :: 0 <= i < |sys.rows| && InSite(sys.rows[i], user, site) ==> i == kept)
    && (forall c :: 0 <= c < |sys.calls| ==> Bound(sys, sys.calls[c], user, site, kept))
  }

  ghost predicate Bound(sys: System, call: Call, user: nat, site: string, kept: nat)
    requires kept < |sys.rows|
  {
    call.user == user && call.domain in {site, WWW + site} ==>
      && call.phase != Upserting
      && (call.phase.Probing? && call.phase.form == 1 ==> sys.rows[kept].domain == WWW + site)
      && (call.phase.Restoring? ==> call.phase.id == kept)
      && (call.phase.Done? ==> call.phase.outcome in {Refused, Existing(kept), Restored(kept), Threw(DatabaseError)})
  }

  lemma HeldStep(sys: System, act: Label, user: nat, site: string, kept: nat)
    requires Inv(sys) && Bare(site) && Held(sys, user, site, kept)
    ensures Held(Step(sys, act), user, site, kept)
  {
    hide Find, StripWww, Accepts, IsPlain;
    BothFormsAreOneSite(site);
    if act.Advance? && act.call < |sys.calls| {
      var call := sys.calls[act.call];
      assert Bound(sys, call, user, site, kept);
      assert CallSound(sys.rows, act.call, call);
      StepCallSound(sys.rows, act.call, call, act.fate);
    }
  }

  lemma {:induction false} HeldForever(start: System, acts: seq<Label>, user: nat, site: string, kept: nat)
    requires Inv(start) && Bare(site) && Held(start, user, site, kept)
    ensures Held(Replay(start, acts), user, site, kept)
    decreases |acts|
  {
    hide Held, Step;
    if acts != [] {
      var front := acts[..|acts| - 1];
      HeldForever(start, front, user, site, kept);
      ReplayInv(start, front);
      HeldStep(Replay(start, front), acts[|acts| - 1], user, site, kept);
    }
  }

  /**
   * A site that has its row keeps exactly that row, be it the bare one or a `www.` one of earlier
   * days, and every call for the site that succeeds lands on it.
   */
  lemma {:induction false} ExistingRowReused(start: System, acts: seq<Label>, user: nat, site: string, kept: nat)
    requires Opening(start) && Bare(site) && AtMostOne(start.rows, user, site)
    requires kept < |start.rows| && InSite(start.rows[kept], user, site)
    ensures Held(Replay(start, acts), user, site, kept) && AtMostOne(Replay(start, acts).rows, user, site)
  {
    HeldForever(start, acts, user, site, kept);
  }

  /** Every call the gate let through for the user and the site, and every row of it, is spelled `spelling`. */
  ghost predicate Uniform(sys: System, user: nat, site: string, spelling: string) {
    && (forall i :: 0 <= i < |sys.rows| && InSite(sys.rows[i], user, site) ==> sys.rows[i].domain == spelling)
    && (forall c :: 0 <= c < |sys.calls| && sys.calls[c].user == user && sys.calls[c].domain in {site, WWW + site} ==>
          sys.calls[c].phase == Done(Refused) || sys.calls[c].domain == spelling)
  }

  /** The hosts one user's callers pass in. */
  ghost predicate Uses(acts: seq<Label>, user: nat, hosts: set<string>) {
    forall i :: 0 <= i < |acts| && acts[i].Enter? && acts[i].user == user ==> acts[i].host in hosts
  }

  /** A host that the gate lets through as the site. */
  predicate Names(host: string, site: string) { StripWww(host) in {site, WWW + site} && Accepts(StripWww(host)) }

  ghost predicate OneSpelling(hosts: set<string>, site: string, spelling: string) {
    forall h | h in hosts && Names(h, site) :: StripWww(h) == spelling
  }

  lemma {:induction false} UniformForever(start: System, acts: seq<Label>, user: nat, site: string, hosts: set<string>, spelling: string)
    requires Uniform(start, user, site, spelling) && Uses(acts, user, hosts) && OneSpelling(hosts, site, spelling)
    ensures Uniform(Replay(start, acts), user, site, spelling)
    decreases |acts|
  {
    hide Find, StripWww, Accepts, AfterProbe;
    if acts != [] {
      var front, act := acts[..|acts| - 1], acts[|acts| - 1];
      UniformForever(start, front, user, site, hosts, spelling);
      if act.Enter? && act.user == user { assert act.host in hosts; }
    }
  }

  /** The two-spellings race: both calls look, neither finds a row, and both insert. */
  function Race(user: nat, h1: string, h2: string): seq<Label> {
    [Enter(user, h1), Enter(user, h2),
     Advance(0, Delivered), Advance(0, Delivered), Advance(1, Delivered), Advance(1, Delivered),
     Advance(0, Delivered), Advance(1, Delivered)]
  }

  function RaceStates(rows: seq<Row>, user: nat, d1: string, d2: string): (states: seq<System>)
    ensures |states| == 9
  {
    var c1, c2 := Call(user, d1, Probing(0, false)), Call(user, d2, Probing(0, false));
    var u1, u2 := c1.(phase := Upserting), c2.(phase := Upserting);
    var once := rows + [Row(user, d1, false, Some(0))];
    var twice := once + [Row(user, d2, false, Some(1))];
    [System(rows, []), System(rows, [c1]), System(rows, [c1, c2]),
     System(rows, [c1.(phase := Probing(1, false)), c2]), System(rows, [u1, c2]),
     System(rows, [u1, c2.(phase := Probing(1, false))]), System(rows, [u1, u2]),
     System(once, [c1.(phase := Done(Created(|rows|))), u2]),
     System(twice, [c1.(phase := Done(Created(|rows|))), c2.(phase := Done(Created(|once|)))])]
  }

  lemma RaceStep(rows: seq<Row>, user: nat, h1: string, h2: string, site: string, n: nat)
    requires Bare(site) && !SiteOpen(rows, user, site) && n < 8
    requires Names(h1, site) && Names(h2, site) && StripWww(h1) != StripWww(h2)
    ensures Step(RaceStates(rows, user, StripWww(h1), StripWww(h2))[n], Race(user, h1, h2)[n])
              == RaceStates(rows, user, StripWww(h1), StripWww(h2))[n + 1]
  {
    hide StripWww, Accepts, Find;
    BothFormsAreOneSite(site);
    var states := RaceStates(rows, user, StripWww(h1), StripWww(h2));
    var next := Step(states[n], Race(user, h1, h2)[n]);
    assert Find(rows, user, site).None? && Find(rows, user, WWW + site).None?;
    var once := rows + [Row(user, StripWww(h1), false, Some(0))];
    assert Find(once, user, StripWww(h2)).None? by {
      forall i | 0 <= i < |once| ensures !Is(once[i], user, StripWww(h2)) {
        if i < |rows| { assert !InSite(rows[i], user, site); }
      }
    }
    assert next.calls == states[n + 1].calls && next.rows == states[n + 1].rows;
  }

  lemma TwoSpellingsRace(start: System, user: nat, h1: string, h2: string, site: string)
    requires Opening(start) && Bare(site) && !SiteOpen(start.rows, user, site)
    requires Names(h1, site) && Names(h2, site) && StripWww(h1) != StripWww(h2)
    ensures !AtMostOne(Replay(start, Race(user, h1, h2)).rows, user, site)
  {
    hide Step, StripWww, Accepts;
    var acts, states := Race(user, h1, h2), RaceStates(start.rows, user, StripWww(h1), StripWww(h2));
    var n := 0;
    assert acts[..0] == [];
    while n < 8
      invariant n <= 8 && Replay(start, acts[..n]) == states[n]
    {
      assert acts[..n + 1][..n] == acts[..n];
      RaceStep(start.rows, user, h1, h2, site, n);
      n := n + 1;
    }
    assert acts[..8] == acts;
    var rows := Replay(start, acts).rows;
    var k := |start.rows|;
    assert InSite(rows[k], user, site) && InSite(rows[k + 1], user, site);
  }

  /**
   * One row per site, exactly. Whatever hosts the callers may pass, every interleaving keeps a user
   * at one row for a site if and only if the site already has a row, or all hosts that the gate lets
   * through as the site normalize to one spelling. A doubled `www.www.` label is normalized to the `www.` twin, so it
   * is the only way to get two spellings.
   */
  lemma OneRowPerSite(start: System, user: nat, site: string, hosts: set<string>)
    requires Opening(start) && Bare(site) && AtMostOne(start.rows, user, site)
    ensures (forall acts :: Uses(acts, user, hosts) ==> AtMostOne(Replay(start, acts).rows, user, site))
              <==> (SiteOpen(start.rows, user, site) || OneSpelling(hosts, site, site) || OneSpelling(hosts, site, WWW + site))
  {
    hide StripWww, Accepts, Replay;
    if SiteOpen(start.rows, user, site) {
      var kept :| 0 <= kept < |start.rows| && InSite(start.rows[kept], user, site);
      forall acts | Uses(acts, user, hosts) ensures AtMostOne(Replay(start, acts).rows, user, site) {
        ExistingRowReused(start, acts, user, site, kept);
      }
    } else if OneSpelling(hosts, site, site) || OneSpelling(hosts, site, WWW + site) {
      var spelling := if OneSpelling(hosts, site, site) then site else WWW + site;
      forall acts | Uses(acts, user, hosts) ensures AtMostOne(Replay(start, acts).rows, user, site) {
        UniformForever(start, acts, user, site, hosts, spelling);
        ReplayInv(start, acts);
      }
    } else {
      var h1 :| h1 in hosts && Names(h1, site) && StripWww(h1) != site;
      var h2 :| h2 in hosts && Names(h2, site) && StripWww(h2) != WWW + site;
      TwoSpellingsRace(start, user, h1, h2, site);
      assert Uses(Race(user, h1, h2), user, hosts);
    }
  }
}
