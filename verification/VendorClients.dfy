/**
 * The four clients that send several paid requests under one reservation, as the program runs
 * them. Between any two of a client's calls the adversary lets every other operation act. Every
 * execution is an execution of `VendorBudget`.
 */
module VendorClients {
  import opened Calendar
  import opened Network
  import opened Numbers
  import opened Options
  import opened SpendLedger
  import opened VendorBudget

  // --- Prices --------------------------------------------------------------------------------------

  const BUDGET_SAFETY_FACTOR: real := 1.5
  const LABS_REQUEST_USD: real := 0.012
  const LABS_ROW_USD: real := 0.00012
  const BACKLINKS_REQUEST_USD: real := 0.024
  const BACKLINKS_ROW_USD: real := 0.000036
  const MAX_COMPETITORS: nat := 3
  const DISCOVERY_MAX_LIMIT: nat := 1000
  const PROFILE_CALL_USD: real := 0.3
  const MAX_LINK_ROWS: int := 700
  const MAX_PAGE_ROWS: int := 200
  const DEFAULT_LINK_ROWS: int := 50
  const DEFAULT_PAGE_ROWS: int := 20

  function EstimateDiscovery(limit: nat): real { (LABS_REQUEST_USD + limit as real * LABS_ROW_USD) * BUDGET_SAFETY_FACTOR }

  const RANK_OVERVIEW_USD: real := (LABS_REQUEST_USD + LABS_ROW_USD) * BUDGET_SAFETY_FACTOR

  const COMPARISON_CEILING_USD: real := EstimateDiscovery(DISCOVERY_MAX_LIMIT) + RANK_OVERVIEW_USD

  function EstimateComparison(competitors: seq<string>, limit: nat): real {
    if |competitors| == 0 then EstimateDiscovery(limit) + RANK_OVERVIEW_USD
    else (Min(|competitors|, MAX_COMPETITORS) + 1) as real * RANK_OVERVIEW_USD
  }

  /** Row counts; `None` is a requested number that is not finite. */
  function ClampLinkRows(rows: Option<real>): int { ClampCount(rows, MAX_LINK_ROWS, DEFAULT_LINK_ROWS) }

  function ClampPageRows(rows: Option<real>): int { ClampCount(rows, MAX_PAGE_ROWS, DEFAULT_PAGE_ROWS) }

  function EstimateRequest(rows: int): real { (BACKLINKS_REQUEST_USD + rows as real * BACKLINKS_ROW_USD) * BUDGET_SAFETY_FACTOR }

  /** Clamped once more inside: clamping a clamped count changes nothing. */
  function EstimateDetails(linkRows: int, pageRows: int): real {
    EstimateRequest(ClampLinkRows(Some(linkRows as real))) + EstimateRequest(ClampPageRows(Some(pageRows as real)))
  }

  function EstimateChanges(buckets: int): real {
    2.0 * (BACKLINKS_REQUEST_USD + (buckets + 1) as real * BACKLINKS_ROW_USD) * BUDGET_SAFETY_FACTOR
  }

  // --- Plans: what each client may send, at the price it would settle an unpriced answer for ---------

  function ComparisonPlan(supplied: seq<string>, limit: nat): seq<real> {
    if |supplied| == 0 then [EstimateDiscovery(limit), RANK_OVERVIEW_USD]
    else seq(|supplied| + 1, _ => RANK_OVERVIEW_USD)
  }

  /** The last request of the discovery flow is sent only when the target is missing from the list. */
  function ComparisonRequired(supplied: seq<string>): nat { if |supplied| == 0 then 1 else |supplied| + 1 }

  function ProfilePlan(): seq<real> { [PROFILE_CALL_USD / 3.0, PROFILE_CALL_USD / 3.0, PROFILE_CALL_USD / 3.0] }

  function DetailsPlan(linkRows: int, pageRows: int): seq<real> { [EstimateRequest(linkRows), EstimateRequest(pageRows)] }

  function ChangesPlan(periods: int): seq<real> { [EstimateChanges(periods) / 2.0, EstimateChanges(periods) / 2.0] }

  lemma {:induction false} SumConstant(n: nat, x: real)
    ensures Sum(seq(n, _ => x)) == n as real * x
  {
    if n > 0 {
      SumConstant(n - 1, x);
      var xs := seq(n, _ => x);
      assert xs[..n - 1] == seq(n - 1, _ => x);
    }
  }

  lemma SumTwo(a: real, b: real)
    ensures Sum([a, b]) == a + b
  {
    assert [a, b][..1] == [a] && [a][..0] == [];
    assert Sum([a]) == a;
  }

  /**
   * Each client reserves exactly the sum of its per-request shares, so a request settled at its
   * own share can never push a success past what was reserved; and no share is negative.
   */
  lemma ReservationsAreSumsOfShares(supplied: seq<string>, limit: nat, linkRows: int, pageRows: int, periods: int)
    requires |supplied| <= MAX_COMPETITORS
    requires 1 <= linkRows <= MAX_LINK_ROWS && 1 <= pageRows <= MAX_PAGE_ROWS && 1 <= periods <= MAX_PERIODS
    ensures Sum(ComparisonPlan(supplied, limit)) == EstimateComparison(supplied, limit)
    ensures SoundPlan(ComparisonPlan(supplied, limit), ComparisonRequired(supplied))
    ensures Sum(ProfilePlan()) == PROFILE_CALL_USD && SoundPlan(ProfilePlan(), 3)
    ensures Sum(DetailsPlan(linkRows, pageRows)) == EstimateDetails(linkRows, pageRows)
    ensures SoundPlan(DetailsPlan(linkRows, pageRows), 2)
    ensures Sum(ChangesPlan(periods)) == EstimateChanges(periods) && SoundPlan(ChangesPlan(periods), 2)
  {
    hide Sum;
    if |supplied| == 0 {
      SumTwo(EstimateDiscovery(limit), RANK_OVERVIEW_USD);
    } else {
      SumConstant(|supplied| + 1, RANK_OVERVIEW_USD);
    }
    SumThirds();
    SumTwo(EstimateRequest(linkRows), EstimateRequest(pageRows));
    SumTwo(EstimateChanges(periods) / 2.0, EstimateChanges(periods) / 2.0);
  }

  lemma SumThirds()
    ensures Sum(ProfilePlan()) == PROFILE_CALL_USD
  {
    var third := PROFILE_CALL_USD / 3.0;
    SumTwo(third, third);
    assert ProfilePlan()[..2] == [third, third];
  }

  /** The shares in millionths of a dollar: one and a half times the vendor's list prices. */
  lemma ListPrices(limit: nat, rows: int, buckets: int)
    ensures EstimateDiscovery(limit) * 1_000_000.0 == 18_000.0 + 180.0 * limit as real
    ensures RANK_OVERVIEW_USD * 1_000_000.0 == 18_180.0
    ensures EstimateRequest(rows) * 1_000_000.0 == 36_000.0 + 54.0 * rows as real
    ensures EstimateChanges(buckets) / 2.0 * 1_000_000.0 == 36_000.0 + 54.0 * (buckets + 1) as real
    ensures forall i :: 0 <= i < 3 ==> ProfilePlan()[i] * 1_000_000.0 == 100_000.0
  {
  }

  /** No comparison at a row limit the vendor accepts reserves more than the declared ceiling. */
  lemma ComparisonCeiling(competitors: seq<string>, limit: nat)
    requires limit <= DISCOVERY_MAX_LIMIT
    ensures 0.0 < EstimateComparison(competitors, limit) <= COMPARISON_CEILING_USD
  {
    var slots := Min(|competitors|, MAX_COMPETITORS) + 1;
    if slots == 1 {} else if slots == 2 {} else if slots == 3 {}
  }

  // --- The comparison table --------------------------------------------------------------------------

  datatype Metrics = Metrics(id: nat)

  datatype Source = Target | Supplied | DiscoveredRival

  datatype Endpoint = CompetitorsDomain | DomainRankOverview

  datatype Discovered = Discovered(domain: string, full: Metrics, common: Metrics)

  datatype Row = Row(domain: string, source: Source, metrics: Metrics, measuredBy: Endpoint, common: Option<Metrics>)

  function Rivals(target: string, rows: seq<Discovered>): seq<Discovered> {
    if rows == [] then []
    else Rivals(target, rows[..|rows| - 1]) + (if rows[|rows| - 1].domain != target then [rows[|rows| - 1]] else [])
  }

  function SelectDiscovered(target: string, rows: seq<Discovered>): seq<Discovered> {
    var rivals := Rivals(target, rows);
    if |rivals| <= MAX_COMPETITORS then rivals else rivals[..MAX_COMPETITORS]
  }

  function FindTargetRow(target: string, rows: seq<Discovered>): (found: Option<Discovered>)
    ensures found.None? ==> forall i :: 0 <= i < |rows| ==> rows[i].domain != target
    ensures found.Some? ==> exists i :: FirstOf(target, rows, i) && rows[i] == found.value
  {
    if rows == [] then None
    else if rows[0].domain == target then assert FirstOf(target, rows, 0); Some(rows[0])
    else
      var found := FindTargetRow(target, rows[1..]);
      assert found.Some? ==> exists i :: FirstOf(target, rows, i) && rows[i] == found.value by {
        if found.Some? {
          var i :| FirstOf(target, rows[1..], i) && rows[1..][i] == found.value;
          assert FirstOf(target, rows, i + 1);
        }
      }
      found
  }

  /** Row `i` is the first one listed for the target. */
  ghost predicate FirstOf(target: string, rows: seq<Discovered>, i: int) {
    0 <= i < |rows| && rows[i].domain == target && forall j :: 0 <= j < i ==> rows[j].domain != target
  }

  function BuildDiscoveredRows(target: string, metrics: Metrics, measuredBy: Endpoint, rivals: seq<Discovered>): seq<Row> {
    [Row(target, Target, metrics, measuredBy, None)]
    + seq(|rivals|, i requires 0 <= i < |rivals| =>
        Row(rivals[i].domain, DiscoveredRival, rivals[i].full, CompetitorsDomain, Some(rivals[i].common)))
  }

  /** The rivals are the listed rows that are not the target, in the vendor's order. */
  lemma {:induction false} RivalsMeaning(target: string, rows: seq<Discovered>)
    ensures forall r :: r in Rivals(target, rows) <==> r in rows && r.domain != target
    ensures |Rivals(target, rows)| <= |rows|
  {
    if rows != [] {
      var front := rows[..|rows| - 1];
      RivalsMeaning(target, front);
      assert forall r :: r in rows <==> r in front || r == rows[|rows| - 1];
    }
  }

  /** The places, in order, of the rows that are not the target's. */
  function RivalPlaces(target: string, rows: seq<Discovered>): seq<nat> {
    if rows == [] then []
    else
      var n := |rows| - 1;
      RivalPlaces(target, rows[..n]) + (if rows[n].domain != target then [n] else [])
  }

  lemma {:induction false} PlacesComplete(target: string, rows: seq<Discovered>)
    ensures forall i: nat :: i in RivalPlaces(target, rows) <==> i < |rows| && rows[i].domain != target
    decreases |rows|
  {
    if rows != [] {
      var n := |rows| - 1;
      PlacesComplete(target, rows[..n]);
      assert forall i: nat :: i in RivalPlaces(target, rows) <==> i in RivalPlaces(target, rows[..n]) || (i == n && rows[n].domain != target);
    }
  }

  lemma {:induction false} PlacesAscend(target: string, rows: seq<Discovered>)
    ensures forall k, l :: 0 <= k < l < |RivalPlaces(target, rows)| ==> RivalPlaces(target, rows)[k] < RivalPlaces(target, rows)[l]
    decreases |rows|
  {
    if rows != [] {
      var n := |rows| - 1;
      PlacesAscend(target, rows[..n]);
      PlacesComplete(target, rows[..n]);
      var at := RivalPlaces(target, rows[..n]);
      assert forall k :: 0 <= k < |at| ==> at[k] in at;
    }
  }

  lemma {:induction false} RivalsStandThere(target: string, rows: seq<Discovered>)
    ensures |RivalPlaces(target, rows)| == |Rivals(target, rows)|
    ensures forall k :: 0 <= k < |RivalPlaces(target, rows)| ==>
              RivalPlaces(target, rows)[k] < |rows| && rows[RivalPlaces(target, rows)[k]] == Rivals(target, rows)[k]
    decreases |rows|
  {
    if rows != [] { RivalsStandThere(target, rows[..|rows| - 1]); }
  }

  /** The first rows listed that are not the target's, by their places in the list; all of them, up to the maximum. */
  ghost predicate FirstRivals(target: string, listed: seq<Discovered>, at: seq<nat>) {
    && |at| <= MAX_COMPETITORS
    && (forall k :: 0 <= k < |at| ==> at[k] < |listed| && listed[at[k]].domain != target)
    && (forall k, l :: 0 <= k < l < |at| ==> at[k] < at[l])
    && forall i :: 0 <= i < |listed| && listed[i].domain != target && i !in at ==>
         |at| == MAX_COMPETITORS && forall k :: 0 <= k < |at| ==> at[k] < i
  }

  /** The rivals' rows of a table, each with its own list row's two measurements. */
  ghost predicate ShowsRivals(target: string, listed: seq<Discovered>, rows: seq<Row>, at: seq<nat>) {
    && FirstRivals(target, listed, at) && |rows| == |at| + 1
    && forall k :: 0 <= k < |at| ==>
         rows[k + 1] == Row(listed[at[k]].domain, DiscoveredRival, listed[at[k]].full, CompetitorsDomain, Some(listed[at[k]].common))
  }

  lemma FirstRivalsTaken(target: string, listed: seq<Discovered>, all: seq<nat>, at: seq<nat>)
    requires forall k :: 0 <= k < |all| ==> all[k] < |listed| && listed[all[k]].domain != target
    requires forall k, l :: 0 <= k < l < |all| ==> all[k] < all[l]
    requires forall i :: 0 <= i < |listed| && listed[i].domain != target ==> i in all
    requires at == all[..Min(|all|, MAX_COMPETITORS)]
    ensures FirstRivals(target, listed, at)
  {
    assert forall k :: 0 <= k < |at| ==> all[k] in at;
    forall i | 0 <= i < |listed| && listed[i].domain != target && i !in at
      ensures |at| == MAX_COMPETITORS && forall k :: 0 <= k < |at| ==> at[k] < i
    {
      var l :| 0 <= l < |all| && all[l] == i;
    }
  }

  /** A table read off one list names its target first, and then the first rivals of the list. */
  lemma DiscoveredTable(target: string, metrics: Metrics, measuredBy: Endpoint, listed: seq<Discovered>) returns (at: seq<nat>)
    ensures var table := BuildDiscoveredRows(target, metrics, measuredBy, SelectDiscovered(target, listed));
            ShowsRivals(target, listed, table, at) && table[0] == Row(target, Target, metrics, measuredBy, None)
  {
    hide Rivals, FirstRivals;
    hide RivalPlaces;
    var all := RivalPlaces(target, listed);
    PlacesComplete(target, listed);
    PlacesAscend(target, listed);
    RivalsStandThere(target, listed);
    assert forall k :: 0 <= k < |all| ==> all[k] in all;
    at := all[..Min(|all|, MAX_COMPETITORS)];
    FirstRivalsTaken(target, listed, all, at);
    forall k | 0 <= k < |at| ensures at[k] < |listed| && listed[at[k]] == SelectDiscovered(target, listed)[k] {}
  }

  // --- The clients -----------------------------------------------------------------------------------

  /** What a request asks the vendor. */
  datatype Question =
    | Competitors(target: string, limit: nat)
    | RankOverview(domain: string)
    | Summary(target: string)
    | ReferringDomains(target: string)
    | Anchors(target: string)
    | LinkList(target: string, rows: int)
    | PageList(target: string, rows: int)
    | NewAndLost(target: string, dateFrom: string, dateTo: string)
    | Timeseries(target: string, dateFrom: string, dateTo: string)

  /** What the vendor answers. */
  datatype Reply = Reply(request: Request, listed: seq<Discovered>, metrics: Metrics)

  datatype Lookup<T> = NotBooked | Failed | Answered(value: T)

  type Vendor = (nat, Question) -> Reply

  /** The vendor replied this to the question, at some call after the first number, up to the second. */
  ghost predicate Said(vendor: Vendor, question: Question, reply: Reply, since: nat, until: nat) {
    exists n: nat :: since < n <= until && reply == vendor(n, question)
  }

  ghost predicate Heard(vendor: Vendor, questions: seq<Question>, heard: seq<Reply>, since: nat, until: nat) {
    |heard| == |questions| && forall i :: 0 <= i < |heard| ==> Said(vendor, questions[i], heard[i], since, until)
  }

  lemma SaidAt(vendor: Vendor, question: Question, n: nat, since: nat, until: nat)
    requires since < n <= until
    ensures Said(vendor, question, vendor(n, question), since, until)
  {
  }

  lemma HeardWithin(vendor: Vendor, questions: seq<Question>, heard: seq<Reply>, since: nat, until: nat, first: nat, last: nat)
    requires Heard(vendor, questions, heard, since, until) && first <= since && until <= last
    ensures Heard(vendor, questions, heard, first, last)
  {
    forall i | 0 <= i < |heard| ensures Said(vendor, questions[i], heard[i], first, last) {
      assert Said(vendor, questions[i], heard[i], since, until);
      var n: nat :| since < n <= until && heard[i] == vendor(n, questions[i]);
      SaidAt(vendor, questions[i], n, first, last);
    }
  }

  lemma HeardOneMore(vendor: Vendor, questions: seq<Question>, heard: seq<Reply>, since: nat, until: nat, n: nat, question: Question)
    requires Heard(vendor, questions, heard, since, until) && since <= until < n
    ensures Heard(vendor, questions + [question], heard + [vendor(n, question)], since, n)
  {
    hide Said;
    HeardWithin(vendor, questions, heard, since, until, since, n);
    SaidAt(vendor, question, n, since, n);
  }

  lemma StepKeeps(sys: System, act: Act)
    requires |sys.billed| == |sys.rows|
    ensures |Step(sys, act).billed| == |Step(sys, act).rows| >= |sys.rows|
  {
  }

  /** The day's open estimates and settled costs leave room for a positive estimate. */
  predicate HasRoom(sys: System, estimated: real) {
    0.0 < estimated <= sys.cap - OpenEstimates(sys.rows) - SettledCosts(sys.rows)
  }

  /** At least one request went out; all but the last one were answered, and so was the last one if `ok`. */
  predicate Sent(asked: seq<Request>, ok: bool) {
    |asked| > 0 && asked[|asked| - 1].ok == ok && AllOk(asked[..|asked| - 1])
  }

  predicate AllOk(asked: seq<Request>) { forall k :: 0 <= k < |asked| ==> asked[k].ok }

  lemma OneMoreSent(asked: seq<Request>, request: Request)
    requires AllOk(asked)
    ensures Sent(asked + [request], request.ok) && (request.ok ==> AllOk(asked + [request]))
  {
    assert (asked + [request])[..|asked|] == asked;
  }

  lemma NothingSent()
    ensures AllOk([])
  {
  }

  class Client {
    var sys: System
    var calls: nat
    const others: nat -> seq<Act>
    const fates: nat -> Fate
    const vendor: Vendor

    ghost const start: System
    ghost var trace: seq<Act>

    constructor (sys: System, others: nat -> seq<Act>, fates: nat -> Fate, vendor: Vendor)
      requires |sys.billed| == |sys.rows|
      ensures Valid() && this.sys == sys && start == sys && trace == []
    {
      this.sys := sys;
      this.others := others;
      this.fates := fates;
      this.vendor := vendor;
      calls, start, trace := 0, sys, [];
    }

    /** The state was reached by protocol steps, and the vendor's bill is kept per reservation. */
    ghost predicate Valid()
      reads this
    {
      sys == Replay(start, trace) && |sys.billed| == |sys.rows|
    }

    method Do(act: Act)
      requires Valid()
      modifies this`sys, this`trace
      ensures Valid() && sys == Step(old(sys), act) && trace == old(trace) + [act]
      ensures |old(sys).rows| <= |sys.rows|
    {
      hide Step;
      StepKeeps(sys, act);
      sys := Step(sys, act);
      trace := trace + [act];
      assert trace[..|trace| - 1] == old(trace);
    }

    /** Every operation but `o` acts, in the adversary's order. */
    method Yield(o: nat)
      requires Valid() && o < |sys.ops|
      modifies this`sys, this`trace, this`calls
      ensures Valid() && o < |sys.ops| && sys.ops[o] == old(sys.ops[o])
      ensures old(trace) <= trace && |old(sys).rows| <= |sys.rows| && calls == old(calls) + 1
    {
      var acts := others(calls);
      calls := calls + 1;
      for i := 0 to |acts|
        invariant Valid() && o < |sys.ops| && sys.ops[o] == old(sys.ops[o])
        invariant old(trace) <= trace && |old(sys).rows| <= |sys.rows| && calls == old(calls) + 1
      {
        if acts[i].Enter? || acts[i].op != o { Do(acts[i]); }
      }
    }

    /** A fresh operation that means to send the planned requests. */
    method Begin(plan: seq<real>, required: nat) returns (o: nat)
      requires Valid()
      modifies this`sys, this`trace
      ensures Valid() && old(trace) <= trace
      ensures o == |old(sys).ops| < |sys.ops| && sys.ops[o] == Operation(plan, required, Start, [], 0)
    {
      o := |sys.ops|;
      Do(Enter(plan, required));
    }

    /**
     * Book the whole operation's estimate. It is booked if the day has room for it as the call arrives,
     * and a request may go out exactly when that answer comes back.
     */
    method ReserveSpend(o: nat, estimated: real) returns (reserved: Option<nat>)
      requires Valid() && o < |sys.ops| && sys.ops[o].phase.Start? && estimated == Estimate(sys.ops[o])
      modifies this`sys, this`trace, this`calls
      ensures Valid() && old(trace) <= trace && o < |sys.ops| && calls == old(calls) + 1
      ensures reserved.None? ==> sys.ops[o] == old(sys.ops[o]).(phase := VendorBudget.Refused)
      ensures reserved.None? ==> fates(calls) != Delivered || !HasRoom(sys, estimated)
      ensures reserved.Some? ==> fates(calls) == Delivered && |sys.rows| == reserved.value + 1
                                 && HasRoom(sys.(rows := sys.rows[..reserved.value]), estimated)
                                 && sys.rows[reserved.value] == Booking(estimated, None)
                                 && sys.ops[o] == old(sys.ops[o]).(phase := Requesting(reserved.value))
    {
      hide Replay, Committed, OpenEstimates, SettledCosts, Sum;
      Yield(o);
      var fate, id := fates(calls), |sys.rows|;
      BookedExactly(sys.rows, estimated, sys.cap);
      assert (sys.rows + [Booking(estimated, None)])[..id] == sys.rows;
      var answer := Book(sys.rows, estimated, sys.cap);
      Do(Reserve(o, fate));
      return if answer.Ok? && fate == Delivered then Some(id) else None;
    }

    /** Tell the ledger what the operation cost. Whatever becomes of the call, nothing is thrown. */
    method SettleSpend(o: nat, id: nat, amount: real, ghost ok: bool)
      requires Valid() && o < |sys.ops| && sys.ops[o].phase == Settling(id, amount, ok)
      modifies this`sys, this`trace, this`calls
      ensures Valid() && old(trace) <= trace && o < |sys.ops| && calls > old(calls)
      ensures sys.ops[o] == old(sys.ops[o]).(phase := Finished(id, amount, ok), settleCalls := old(sys.ops[o]).settleCalls + 1)
    {
      Yield(o);
      Do(SettleUp(o, fates(calls)));
    }

    /** Close a failed operation at its own estimate. */
    method SettleFailedSpend(o: nat, id: nat, estimated: real)
      requires Valid() && o < |sys.ops| && sys.ops[o].phase == Settling(id, estimated, false)
      modifies this`sys, this`trace, this`calls
      ensures Valid() && old(trace) <= trace && o < |sys.ops| && calls > old(calls)
      ensures sys.ops[o] == old(sys.ops[o]).(phase := Finished(id, estimated, false), settleCalls := old(sys.ops[o]).settleCalls + 1)
    {
      SettleSpend(o, id, estimated, false);
    }

    /** Send one request and add its price, or `fallback` when it states none, to the running tally. */
    method RunRequest(o: nat, id: nat, question: Question, tally: real, fallback: real) returns (reply: Reply, tally': real)
      requires Valid() && o < |sys.ops| && sys.ops[o].phase == Requesting(id) && id < |sys.rows|
      requires |sys.ops[o].asked| < |sys.ops[o].plan| && fallback == sys.ops[o].plan[|sys.ops[o].asked|]
      requires tally == Tally(sys.ops[o].plan, sys.ops[o].asked) && AllOk(sys.ops[o].asked)
      modifies this`sys, this`trace, this`calls
      ensures Valid() && old(trace) <= trace && o < |sys.ops| && id < |sys.rows|
      ensures Sent(sys.ops[o].asked, reply.request.ok) && (reply.request.ok ==> AllOk(sys.ops[o].asked))
      ensures sys.ops[o] == AfterAsk(old(sys.ops[o]), reply.request)
      ensures calls > old(calls) && reply == vendor(calls, question)
      ensures reply.request.ok ==> tally' == Tally(sys.ops[o].plan, sys.ops[o].asked)
    {
      Yield(o);
      reply := vendor(calls, question);
      ghost var before := sys.ops[o];
      Do(Ask(o, reply.request));
      OneMoreSent(before.asked, reply.request);
      tally' := tally;
      if reply.request.ok {
        tally' := tally + (if reply.request.reported then reply.request.cost else fallback);
        assert sys.ops[o].asked[..|sys.ops[o].asked| - 1] == before.asked;
      }
    }

    /**
     * How an operation ends for its caller: refused with nothing sent and nothing to settle, failed
     * and settled once at the whole estimate, or answered and settled once at its tally.
     */
    ghost predicate EndsAs<T>(op: Operation, answer: Lookup<T>) {
      match answer
      case NotBooked => op.phase.Refused? && op.asked == [] && op.settleCalls == 0
      case Failed =>
        && op.phase.Finished? && !op.phase.ok && op.phase.amount == Estimate(op) && op.settleCalls == 1
        && Sent(op.asked, false)
      case Answered(_) =>
        && op.phase.Finished? && op.phase.ok && op.settleCalls == 1 && Sent(op.asked, true)
        && op.required <= |op.asked| <= |op.plan| && op.phase.amount == Tally(op.plan, op.asked)
    }

    /** Nothing was sent only because the day had no room for it, or because the booking's answer did not come. */
    ghost predicate RefusedRightly<T>(op: Operation, answer: Lookup<T>, since: nat)
      reads this
    {
      answer.NotBooked? ==> calls == since + 1 && (fates(calls) != Delivered || !HasRoom(sys, Estimate(op)))
    }

    /** The profile's three requests, stopping at the first that fails. */
    method AskProfile(o: nat, id: nat, target: string) returns (ok: bool, heard: seq<Reply>, tally: real)
      requires Valid() && o < |sys.ops| && id < |sys.rows| && sys.ops[o].phase == Requesting(id) && sys.ops[o].asked == []
      requires sys.ops[o].plan == ProfilePlan()
      modifies this`sys, this`trace, this`calls
      ensures Valid() && old(trace) <= trace && o < |sys.ops| && calls >= old(calls)
      ensures |sys.ops[o].asked| <= |sys.ops[o].plan| && Sent(sys.ops[o].asked, ok)
      ensures sys.ops[o] == old(sys.ops[o]).(asked := sys.ops[o].asked,
                phase := if ok then Requesting(id) else Settling(id, Estimate(sys.ops[o]), false))
      ensures ok ==> tally == Tally(sys.ops[o].plan, sys.ops[o].asked) && Requests(heard) == sys.ops[o].asked
      ensures ok ==> |heard| == 3 && Heard(vendor, ProfileQuestions(target), heard, old(calls), calls)
    {
      hide Replay, Step, Tally, Sum, Book, Close, HasRoom, Sent, AllOk, Said;
      NothingSent();
      TallyNothing(ProfilePlan());
      var summary, domains, anchors: Reply;
      summary, tally := RunRequest(o, id, Summary(target), 0.0, PROFILE_CALL_USD / 3.0);
      if !summary.request.ok { return false, [], tally; }
      ghost var first := calls;
      domains, tally := RunRequest(o, id, ReferringDomains(target), tally, PROFILE_CALL_USD / 3.0);
      if !domains.request.ok { return false, [], tally; }
      ghost var second := calls;
      anchors, tally := RunRequest(o, id, Anchors(target), tally, PROFILE_CALL_USD / 3.0);
      if !anchors.request.ok { return false, [], tally; }
      SaidAt(vendor, Summary(target), first, old(calls), calls);
      SaidAt(vendor, ReferringDomains(target), second, old(calls), calls);
      SaidAt(vendor, Anchors(target), calls, old(calls), calls);
      return true, [summary, domains, anchors], tally;
    }

    /** The profile: its summary, its referring domains, its anchors, in that order. */
    method FetchBacklinkProfile(target: string) returns (answer: Lookup<seq<Reply>>, ghost o: nat)
      requires Valid()
      modifies this`sys, this`trace, this`calls
      ensures Valid() && old(trace) <= trace
      ensures o < |sys.ops| && sys.ops[o].plan == ProfilePlan() && EndsAs(sys.ops[o], answer)
      ensures RefusedRightly(sys.ops[o], answer, old(calls))
      ensures answer.Answered? ==>
                Requests(answer.value) == sys.ops[o].asked && Heard(vendor, ProfileQuestions(target), answer.value, old(calls), calls)
    {
      hide Replay, Step, Tally, Sum, Book, Close, HasRoom, Sent, AllOk, Heard;
      var me := Begin(ProfilePlan(), 3);
      o := me;
      SumThirds();
      var reserved := ReserveSpend(me, PROFILE_CALL_USD);
      if reserved.None? { return NotBooked, o; }
      var id := reserved.value;
      ghost var booked := calls;
      var ok, heard, tally := AskProfile(me, id, target);
      if !ok {
        SettleFailedSpend(me, id, PROFILE_CALL_USD);
        return Failed, o;
      }
      ghost var answered := calls;
      Wrap(me, id, tally);
      SettleSpend(me, id, tally, true);
      HeardWithin(vendor, ProfileQuestions(target), heard, booked, answered, old(calls), calls);
      return Answered(heard), o;
    }

    /** Every request is answered: what remains is to settle at the tally. */
    method Wrap(o: nat, id: nat, ghost tally: real)
      requires Valid() && o < |sys.ops| && sys.ops[o].phase == Requesting(id)
      requires sys.ops[o].required <= |sys.ops[o].asked| <= |sys.ops[o].plan|
      requires tally == Tally(sys.ops[o].plan, sys.ops[o].asked)
      modifies this`sys, this`trace
      ensures Valid() && old(trace) <= trace && o < |sys.ops|
      ensures sys.ops[o] == old(sys.ops[o]).(phase := Settling(id, tally, true))
    {
      Do(Conclude(o));
    }

    /** Two requests, the second one sent only when the first is answered. */
    method AskTwo(o: nat, id: nat, question1: Question, fallback1: real, question2: Question, fallback2: real)
      returns (ok: bool, heard: seq<Reply>, tally: real)
      requires Valid() && o < |sys.ops| && id < |sys.rows| && sys.ops[o].phase == Requesting(id) && sys.ops[o].asked == []
      requires sys.ops[o].plan == [fallback1, fallback2]
      modifies this`sys, this`trace, this`calls
      ensures Valid() && old(trace) <= trace && o < |sys.ops| && calls >= old(calls)
      ensures |sys.ops[o].asked| <= |sys.ops[o].plan| && Sent(sys.ops[o].asked, ok)
      ensures sys.ops[o] == old(sys.ops[o]).(asked := sys.ops[o].asked,
                phase := if ok then Requesting(id) else Settling(id, Estimate(sys.ops[o]), false))
      ensures ok ==> tally == Tally(sys.ops[o].plan, sys.ops[o].asked) && Requests(heard) == sys.ops[o].asked
      ensures ok ==> |heard| == 2 && Heard(vendor, [question1, question2], heard, old(calls), calls)
    {
      hide Replay, Step, Tally, Sum, Book, Close, HasRoom, Sent, AllOk, Said;
      NothingSent();
      TallyNothing(sys.ops[o].plan);
      var reply1, reply2: Reply;
      reply1, tally := RunRequest(o, id, question1, 0.0, fallback1);
      if !reply1.request.ok { return false, [], tally; }
      ghost var first := calls;
      reply2, tally := RunRequest(o, id, question2, tally, fallback2);
      if !reply2.request.ok { return false, [], tally; }
      SaidAt(vendor, question1, first, old(calls), calls);
      SaidAt(vendor, question2, calls, old(calls), calls);
      return true, [reply1, reply2], tally;
    }

    /** The links and the pages they point at; both row counts are clamped before anything is priced. */
    method FetchBacklinkDetails(target: string, limit: Option<real>, pageLimit: Option<real>)
      returns (answer: Lookup<seq<Reply>>, ghost o: nat)
      requires Valid()
      modifies this`sys, this`trace, this`calls
      ensures Valid() && old(trace) <= trace
      ensures o < |sys.ops| && sys.ops[o].plan == DetailsPlan(ClampLinkRows(limit), ClampPageRows(pageLimit))
      ensures EndsAs(sys.ops[o], answer)
      ensures RefusedRightly(sys.ops[o], answer, old(calls))
      ensures answer.Answered? ==>
                && Requests(answer.value) == sys.ops[o].asked
                && Heard(vendor, [LinkList(target, ClampLinkRows(limit)), PageList(target, ClampPageRows(pageLimit))], answer.value, old(calls), calls)
    {
      hide Replay, Step, Tally, Sum, Book, Close, HasRoom, Sent, AllOk, Heard;
      var linkRows, pageRows := ClampLinkRows(limit), ClampPageRows(pageLimit);
      var me := Begin(DetailsPlan(linkRows, pageRows), 2);
      o := me;
      ReservationsAreSumsOfShares([], 0, linkRows, pageRows, 1);
      var estimated := EstimateDetails(linkRows, pageRows);
      var reserved := ReserveSpend(me, estimated);
      if reserved.None? { return NotBooked, o; }
      var id := reserved.value;
      ghost var booked := calls;
      ghost var questions := [LinkList(target, linkRows), PageList(target, pageRows)];
      var ok, heard, tally := AskTwo(me, id, LinkList(target, linkRows), EstimateRequest(linkRows),
                                     PageList(target, pageRows), EstimateRequest(pageRows));
      if !ok {
        SettleFailedSpend(me, id, estimated);
        return Failed, o;
      }
      ghost var answered := calls;
      Wrap(me, id, tally);
      SettleSpend(me, id, tally, true);
      HeardWithin(vendor, questions, heard, booked, answered, old(calls), calls);
      return Answered(heard), o;
    }

    /** The two timeseries of one window, each settled at half the estimate when it states no price. */
    method FetchBacklinkChanges(target: string, today: int, group: GroupRange, requested: Option<real>)
      returns (answer: Lookup<seq<Reply>>, ghost o: nat)
      requires Valid()
      modifies this`sys, this`trace, this`calls
      ensures Valid() && old(trace) <= trace
      ensures o < |sys.ops| && sys.ops[o].plan == ChangesPlan(ClampPeriods(requested)) && EndsAs(sys.ops[o], answer)
      ensures RefusedRightly(sys.ops[o], answer, old(calls))
      ensures answer.Answered? ==>
                && Requests(answer.value) == sys.ops[o].asked
                && var dateFrom, dateTo := WindowStart(today, group, requested), Text(today);
                && Heard(vendor, [NewAndLost(target, dateFrom, dateTo), Timeseries(target, dateFrom, dateTo)], answer.value, old(calls), calls)
    {
      hide Replay, Step, Tally, Sum, Book, Close, HasRoom, Sent, AllOk, Heard, WindowStart, Text;
      var periods := ClampPeriods(requested);
      var dateTo, dateFrom := Text(today), WindowStart(today, group, Some(periods as real));
      SameWindow(today, group, requested);
      var me := Begin(ChangesPlan(periods), 2);
      o := me;
      ReservationsAreSumsOfShares([], 0, 1, 1, periods);
      var estimated := EstimateChanges(periods);
      var reserved := ReserveSpend(me, estimated);
      if reserved.None? { return NotBooked, o; }
      var id := reserved.value;
      ghost var booked := calls;
      ghost var questions := [NewAndLost(target, dateFrom, dateTo), Timeseries(target, dateFrom, dateTo)];
      var ok, heard, tally := AskTwo(me, id, NewAndLost(target, dateFrom, dateTo), estimated / 2.0,
                                     Timeseries(target, dateFrom, dateTo), estimated / 2.0);
      if !ok {
        SettleFailedSpend(me, id, estimated);
        return Failed, o;
      }
      ghost var answered := calls;
      Wrap(me, id, tally);
      SettleSpend(me, id, tally, true);
      HeardWithin(vendor, questions, heard, booked, answered, old(calls), calls);
      return Answered(heard), o;
    }

    /** One request per compared domain, the target first, stopping at the first that fails. */
    method AskSupplied(o: nat, id: nat, target: string, supplied: seq<string>)
      returns (ok: bool, rows: seq<Row>, tally: real, ghost heard: seq<Reply>)
      requires Valid() && o < |sys.ops| && id < |sys.rows| && sys.ops[o].phase == Requesting(id) && sys.ops[o].asked == []
      requires sys.ops[o].plan == seq(|supplied| + 1, _ => RANK_OVERVIEW_USD)
      modifies this`sys, this`trace, this`calls
      ensures Valid() && old(trace) <= trace && o < |sys.ops| && calls >= old(calls)
      ensures |sys.ops[o].asked| <= |sys.ops[o].plan| && Sent(sys.ops[o].asked, ok)
      ensures sys.ops[o] == old(sys.ops[o]).(asked := sys.ops[o].asked,
                phase := if ok then Requesting(id) else Settling(id, Estimate(sys.ops[o]), false))
      ensures ok ==> tally == Tally(sys.ops[o].plan, sys.ops[o].asked) && Requests(heard) == sys.ops[o].asked
      ensures ok ==> SuppliedTable(target, supplied, heard, rows) && Heard(vendor, Overviews([target] + supplied), heard, old(calls), calls)
    {
      hide Replay, Step, Tally, Sum, Book, Close, HasRoom, Sent, AllOk;
      var domains := [target] + supplied;
      NothingSent();
      TallyNothing(sys.ops[o].plan);
      rows, tally, heard := [], 0.0, [];
      for i := 0 to |domains|
        invariant Valid() && old(trace) <= trace && o < |sys.ops| && id < |sys.rows| && calls >= old(calls)
        invariant sys.ops[o] == old(sys.ops[o]).(asked := sys.ops[o].asked)
        invariant |rows| == |heard| == i && Requests(heard) == sys.ops[o].asked
        invariant AllOk(sys.ops[o].asked) && (i > 0 ==> Sent(sys.ops[o].asked, true))
        invariant Heard(vendor, Overviews(domains[..i]), heard, old(calls), calls)
        invariant tally == Tally(sys.ops[o].plan, sys.ops[o].asked)
        invariant forall k :: 0 <= k < i ==> rows[k] == SuppliedRow(domains[k], k, heard[k])
      {
        var overview: Reply;
        ghost var before := calls;
        overview, tally := RunRequest(o, id, RankOverview(domains[i]), tally, RANK_OVERVIEW_USD);
        HeardOneMore(vendor, Overviews(domains[..i]), heard, old(calls), before, calls, RankOverview(domains[i]));
        assert Overviews(domains[..i + 1]) == Overviews(domains[..i]) + [RankOverview(domains[i])];
        heard := heard + [overview];
        if !overview.request.ok { return false, rows, tally, heard; }
        rows := rows + [Row(domains[i], if i == 0 then Target else Supplied, overview.metrics, DomainRankOverview, None)];
      }
      assert domains[..|domains|] == domains;
      return true, rows, tally, heard;
    }

    /** One list answers the whole table; a second request goes out only when it leaves the target out. */
    method AskDiscovery(o: nat, id: nat, target: string, limit: nat)
      returns (ok: bool, rows: seq<Row>, tally: real, ghost heard: seq<Reply>)
      requires Valid() && o < |sys.ops| && id < |sys.rows| && sys.ops[o].phase == Requesting(id) && sys.ops[o].asked == []
      requires sys.ops[o].plan == [EstimateDiscovery(limit), RANK_OVERVIEW_USD]
      modifies this`sys, this`trace, this`calls
      ensures Valid() && old(trace) <= trace && o < |sys.ops| && calls >= old(calls)
      ensures |sys.ops[o].asked| <= |sys.ops[o].plan| && Sent(sys.ops[o].asked, ok)
      ensures sys.ops[o] == old(sys.ops[o]).(asked := sys.ops[o].asked,
                phase := if ok then Requesting(id) else Settling(id, Estimate(sys.ops[o]), false))
      ensures ok ==> tally == Tally(sys.ops[o].plan, sys.ops[o].asked) && Requests(heard) == sys.ops[o].asked
      ensures ok ==> DiscoveryTable(target, heard, rows) && Heard(vendor, DiscoveryQuestions(target, limit, |heard|), heard, old(calls), calls)
    {
      hide Replay, Step, Tally, Sum, Book, Close, HasRoom, Sent, AllOk, EstimateDiscovery, SelectDiscovered, BuildDiscoveredRows, DiscoveryTable, Said;
      NothingSent();
      TallyNothing(sys.ops[o].plan);
      rows, heard := [], [];
      var list: Reply;
      list, tally := RunRequest(o, id, Competitors(target, limit), 0.0, EstimateDiscovery(limit));
      heard := [list];
      ghost var first := calls;
      if !list.request.ok { return false, rows, tally, heard; }
      var targetRow := FindTargetRow(target, list.listed);
      var metrics, measuredBy;
      if targetRow.Some? {
        metrics, measuredBy := targetRow.value.full, CompetitorsDomain;
      } else {
        var overview: Reply;
        overview, tally := RunRequest(o, id, RankOverview(target), tally, RANK_OVERVIEW_USD);
        heard := [list, overview];
        if !overview.request.ok { return false, rows, tally, heard; }
        metrics, measuredBy := overview.metrics, DomainRankOverview;
      }
      rows := BuildDiscoveredRows(target, metrics, measuredBy, SelectDiscovered(target, list.listed));
      TableShown(target, heard, metrics, measuredBy, rows);
      SaidAt(vendor, Competitors(target, limit), first, old(calls), calls);
      SaidAt(vendor, RankOverview(target), calls, old(calls), calls);
      return true, rows, tally, heard;
    }

    /** The comparison table, by whichever of the two flows the query asks for. */
    method FetchCompetitorComparison(target: string, competitors: seq<string>, limit: nat)
      returns (answer: Lookup<seq<Row>>, ghost o: nat, ghost heard: seq<Reply>)
      requires Valid()
      modifies this`sys, this`trace, this`calls
      ensures Valid() && old(trace) <= trace && o < |sys.ops|
      ensures RefusedRightly(sys.ops[o], answer, old(calls))
      ensures var supplied := FirstThree(competitors);
              && sys.ops[o].plan == ComparisonPlan(supplied, limit) && EndsAs(sys.ops[o], answer)
              && (answer.Answered? ==>
                    && Requests(heard) == sys.ops[o].asked
                    && if |competitors| > 0 then
                         && SuppliedTable(target, supplied, heard, answer.value)
                         && Heard(vendor, Overviews([target] + supplied), heard, old(calls), calls)
                       else
                         && DiscoveryTable(target, heard, answer.value)
                         && Heard(vendor, DiscoveryQuestions(target, limit, |heard|), heard, old(calls), calls))
    {
      hide Replay, Step, Tally, Sum, Book, Close, HasRoom, Sent, AllOk, EstimateDiscovery, EstimateComparison, DiscoveryTable, SuppliedTable, Heard;
      heard := [];
      var supplied := FirstThree(competitors);
      var discovering := |supplied| == 0;
      var me := Begin(ComparisonPlan(supplied, limit), ComparisonRequired(supplied));
      o := me;
      ReservationsAreSumsOfShares(supplied, limit, 1, 1, 1);
      var estimated := EstimateComparison(supplied, limit);
      var reserved := ReserveSpend(me, estimated);
      if reserved.None? { return NotBooked, o, heard; }
      var id := reserved.value;
      ghost var booked := calls;
      var ok, rows, tally;
      if discovering {
        ok, rows, tally, heard := AskDiscovery(me, id, target, limit);
        if ok { DiscoveryAsks(target, heard, rows); }
      } else {
        ok, rows, tally, heard := AskSupplied(me, id, target, supplied);
        if ok { SuppliedAsks(target, supplied, heard, rows); }
      }
      if !ok {
        SettleFailedSpend(me, id, estimated);
        return Failed, o, heard;
      }
      ghost var answered := calls;
      Wrap(me, id, tally);
      SettleSpend(me, id, tally, true);
      HeardWithin(vendor, if discovering then DiscoveryQuestions(target, limit, |heard|) else Overviews([target] + supplied),
                  heard, booked, answered, old(calls), calls);
      return Answered(rows), o, heard;
    }
  }

  /** The first three competitors supplied, in the caller's order. */
  function FirstThree(competitors: seq<string>): (first: seq<string>)
    ensures first <= competitors && |first| <= 3 && (|first| == 3 || first == competitors)
  {
    competitors[..Min(|competitors|, MAX_COMPETITORS)]
  }

  function ProfileQuestions(target: string): seq<Question> { [Summary(target), ReferringDomains(target), Anchors(target)] }

  function Overviews(domains: seq<string>): seq<Question> {
    seq(|domains|, i requires 0 <= i < |domains| => RankOverview(domains[i]))
  }

  function DiscoveryQuestions(target: string, limit: nat, n: nat): seq<Question> {
    if n == 1 then [Competitors(target, limit)] else [Competitors(target, limit), RankOverview(target)]
  }

  /** The window sent is that of the periods asked for: they are clamped once more inside. */
  lemma SameWindow(today: int, group: GroupRange, requested: Option<real>)
    ensures WindowStart(today, group, Some(ClampPeriods(requested) as real)) == WindowStart(today, group, requested)
  {
    hide Text, Calendar.Start;
  }

  function SuppliedRow(domain: string, position: nat, reply: Reply): Row {
    Row(domain, if position == 0 then Target else Supplied, reply.metrics, DomainRankOverview, None)
  }

  /** Every compared domain in the caller's order, the target first, each with the figures of its own reply. */
  ghost predicate SuppliedTable(target: string, supplied: seq<string>, heard: seq<Reply>, rows: seq<Row>) {
    && |rows| == |heard| == |supplied| + 1
    && rows[0] == Row(target, Target, heard[0].metrics, DomainRankOverview, None)
    && forall i :: 0 <= i < |supplied| ==> rows[i + 1] == Row(supplied[i], Supplied, heard[i + 1].metrics, DomainRankOverview, None)
  }

  /**
   * The table of the first reply's list: the target with its own first row's figures if it has one, and
   * otherwise with those of a second reply, and the list's first rivals.
   */
  ghost predicate DiscoveryTable(target: string, heard: seq<Reply>, rows: seq<Row>) {
    && |heard| > 0 && |rows| > 0
    && var listed := heard[0].listed;
    && (exists at :: ShowsRivals(target, listed, rows, at))
    && if exists i :: 0 <= i < |listed| && listed[i].domain == target then
         |heard| == 1 && exists i :: FirstOf(target, listed, i) && rows[0] == Row(target, Target, listed[i].full, CompetitorsDomain, None)
       else
         |heard| == 2 && rows[0] == Row(target, Target, heard[1].metrics, DomainRankOverview, None)
  }

  lemma TableShown(target: string, heard: seq<Reply>, metrics: Metrics, measuredBy: Endpoint, rows: seq<Row>)
    requires |heard| > 0 && rows == BuildDiscoveredRows(target, metrics, measuredBy, SelectDiscovered(target, heard[0].listed))
    requires var found := FindTargetRow(target, heard[0].listed);
             if found.Some? then |heard| == 1 && metrics == found.value.full && measuredBy == CompetitorsDomain
             else |heard| == 2 && metrics == heard[1].metrics && measuredBy == DomainRankOverview
    ensures DiscoveryTable(target, heard, rows)
  {
    hide BuildDiscoveredRows, SelectDiscovered;
    var at := DiscoveredTable(target, metrics, measuredBy, heard[0].listed);
  }

  lemma SuppliedAsks(target: string, supplied: seq<string>, heard: seq<Reply>, rows: seq<Row>)
    requires SuppliedTable(target, supplied, heard, rows)
    ensures |heard| == |supplied| + 1
  {
  }

  lemma DiscoveryAsks(target: string, heard: seq<Reply>, rows: seq<Row>)
    requires DiscoveryTable(target, heard, rows)
    ensures 1 <= |heard| <= 2
  {
  }

  function Requests(replies: seq<Reply>): seq<Request> {
    seq(|replies|, i requires 0 <= i < |replies| => replies[i].request)
  }

  lemma TallyNothing(plan: seq<real>)
    ensures Tally(plan, []) == 0.0
  {
  }
}
