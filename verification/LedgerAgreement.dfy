/**
 * The spend table over many days, and exactly when the in-memory double answers as it does. The table
 * keeps dollars to the micro-dollar, sums one UTC day at a time and checks what it is told.
 */
module LedgerAgreement {
  import opened MemoryLedger
  import opened Options
  import opened SpendLedger

  // --- The table ---------------------------------------------------------------------------------------

  datatype Entry = Entry(day: nat, endpoint: string, booking: Booking, rowCount: Option<int>)

  /** What the column keeps of an amount that is not negative: whole micro-dollars. */
  function Stored(usd: real): real { (usd * 1000000.0 + 0.5).Floor as real / 1000000.0 }

  /** The column has six digits before the point. */
  predicate Fits(usd: real) { Stored(usd) < 1000000.0 }

  predicate IsInt32(n: int) { -0x8000_0000 <= n < 0x8000_0000 }

  function Bookings(table: seq<Entry>): (b: seq<Booking>)
    ensures |b| == |table| && forall i :: 0 <= i < |table| ==> b[i] == table[i].booking
  {
    seq(|table|, i requires 0 <= i < |table| => table[i].booking)
  }

  function OfDay(table: seq<Entry>, day: nat): seq<Booking> {
    if table == [] then []
    else
      var front, last := OfDay(table[..|table| - 1], day), table[|table| - 1];
      if last.day == day then front + [last.booking] else front
  }

  /** What a caller asks, and on which UTC day where that matters. */
  datatype Request =
    | Reserve(day: nat, endpoint: string, estimated: real)
    | Settle(id: nat, actual: real, rowCount: int)
    | Today(day: nat)

  /** What a caller is told. */
  datatype Reply = Booked(id: nat) | Done | Spent(usd: real) | Rejected(error: Error)

  /** `reserve_dfs_spend`: the checks in their order, then the insert. */
  function TableReserve(table: seq<Entry>, day: nat, endpoint: string, estimated: real, cap: real): (seq<Entry>, Reply) {
    var answer := Book(OfDay(table, day), estimated, cap);
    if estimated > 0.0 && endpoint == "" then (table, Rejected(InvalidEndpoint))
    else if answer.Err? then (table, Rejected(answer.error))
    else if !Fits(estimated) then (table, Rejected(Overflow))
    else (table + [Entry(day, endpoint, Booking(Stored(estimated), None), None)], Booked(|table|))
  }

  /** `settle_dfs_spend`: the arguments' types, the checks in their order, then the update. */
  function TableSettle(table: seq<Entry>, id: nat, actual: real, rowCount: int): (seq<Entry>, Reply) {
    var answer := Close(Bookings(table), id, actual);
    if !IsInt32(rowCount) then (table, Rejected(InvalidRowCount))
    else if answer.Err? then (table, Rejected(answer.error))
    else if !Fits(actual) then (table, Rejected(Overflow))
    else (table[id := table[id].(booking := table[id].booking.(actual := Some(Stored(actual))), rowCount := Some(rowCount))], Done)
  }

  function TableStep(table: seq<Entry>, request: Request, cap: real): (seq<Entry>, Reply) {
    match request
    case Reserve(day, endpoint, estimated) => TableReserve(table, day, endpoint, estimated, cap)
    case Settle(id, actual, rowCount) => TableSettle(table, id, actual, rowCount)
    case Today(day) => (table, Spent(Committed(OfDay(table, day))))
  }

  /** The double's answer to the same request. */
  function DoubleStep(rows: seq<Booking>, request: Request, cap: real): (seq<Booking>, Reply) {
    match request
    case Reserve(_, _, estimated) =>
      var answer := MemoryBook(rows, estimated, cap);
      if answer.Err? then (rows, Rejected(answer.error)) else (answer.rows, Booked(|rows|))
    case Settle(id, actual, _) =>
      var answer := MemoryClose(rows, id, actual);
      if answer.Err? then (rows, Rejected(answer.error)) else (answer.rows, Done)
    case Today(_) => (rows, Spent(Committed(rows)))
  }

  // --- Runs --------------------------------------------------------------------------------------------

  type Ledger<!S> = (seq<S>, Request, real) -> (seq<S>, Reply)

  function After<S>(ledger: Ledger<S>, requests: seq<Request>, cap: real): seq<S> {
    if requests == [] then [] else ledger(After(ledger, requests[..|requests| - 1], cap), requests[|requests| - 1], cap).0
  }

  /** What the callers are told, one after another. */
  function Replies<S>(ledger: Ledger<S>, requests: seq<Request>, cap: real): (replies: seq<Reply>)
    ensures |replies| == |requests|
  {
    if requests == [] then []
    else
      var front := requests[..|requests| - 1];
      Replies(ledger, front, cap) + [ledger(After(ledger, front, cap), requests[|requests| - 1], cap).1]
  }

  // --- When the double answers as the table ---------------------------------------------------------------

  predicate IsOpen(rows: seq<Booking>, id: nat) { id < |rows| && rows[id].actual.None? }

  /**
   * What a request must be like: an estimate is positive and names its endpoint, the cap decides alike on
   * what the table has stored for that day and on all the double has ever booked, and what it
   * admits fits the column; a cost is not negative, its row count is an integer of 32 bits, and
   * the cost of an open row fits the column; a day's total is the total of all days.
   */
  predicate Alike(table: seq<Entry>, rows: seq<Booking>, request: Request, cap: real) {
    match request
    case Reserve(day, endpoint, estimated) =>
      var over := Committed(rows) + estimated > cap;
      && estimated > 0.0 && endpoint != "" && (Committed(OfDay(table, day)) + estimated > cap <==> over)
      && (over || Fits(estimated))
    case Settle(id, actual, rowCount) => actual >= 0.0 && IsInt32(rowCount) && (IsOpen(rows, id) ==> Fits(actual))
    case Today(day) => Committed(OfDay(table, day)) == Committed(rows)
  }

  /** The table holds what the double holds, to the micro-dollar. */
  ghost predicate Mirrors(table: seq<Entry>, rows: seq<Booking>) {
    |table| == |rows| && forall i :: 0 <= i < |rows| ==> table[i].booking == AsStored(rows[i])
  }

  function AsStored(b: Booking): Booking {
    Booking(Stored(b.estimated), if b.actual.Some? then Some(Stored(b.actual.value)) else None)
  }

  lemma OneRequest(table: seq<Entry>, rows: seq<Booking>, request: Request, cap: real)
    requires Mirrors(table, rows)
    ensures TableStep(table, request, cap).1 == DoubleStep(rows, request, cap).1 <==> Alike(table, rows, request, cap)
    ensures Alike(table, rows, request, cap) ==> Mirrors(TableStep(table, request, cap).0, DoubleStep(rows, request, cap).0)
  {
    hide Committed, Stored, OfDay;
  }

  /** Every request is one the two ledgers answer alike where it comes. */
  ghost predicate AllAlike(requests: seq<Request>, cap: real) {
    forall i :: 0 <= i < |requests| ==>
      Alike(After(TableStep, requests[..i], cap), After(DoubleStep, requests[..i], cap), requests[i], cap)
  }

  lemma AllAlikeSnoc(requests: seq<Request>, cap: real)
    requires requests != []
    ensures var front := requests[..|requests| - 1];
            AllAlike(requests, cap) <==>
              AllAlike(front, cap) && Alike(After(TableStep, front, cap), After(DoubleStep, front, cap), requests[|requests| - 1], cap)
  {
    hide Alike, After;
    var front := requests[..|requests| - 1];
    forall i | 0 <= i < |front| ensures front[..i] == requests[..i] && front[i] == requests[i] {}
    if AllAlike(requests, cap) {
      forall i | 0 <= i < |front| ensures Alike(After(TableStep, front[..i], cap), After(DoubleStep, front[..i], cap), front[i], cap) {
        assert front[..i] == requests[..i];
      }
    }
  }

  /**
   * Over any sequence of calls on any days, the double tells its callers what the table would if and only
   * if every call is `Alike` where it comes.
   */
  lemma {:induction false} SameAnswersExactly(requests: seq<Request>, cap: real)
    ensures Replies(DoubleStep, requests, cap) == Replies(TableStep, requests, cap) <==> AllAlike(requests, cap)
    ensures AllAlike(requests, cap) ==> Mirrors(After(TableStep, requests, cap), After(DoubleStep, requests, cap))
    decreases |requests|
  {
    hide Alike, AllAlike, Mirrors, TableStep, DoubleStep;
    if requests == [] {
      NoRequests(cap);
    } else {
      var n := |requests| - 1;
      var front := requests[..n];
      SameAnswersExactly(front, cap);
      AllAlikeSnoc(requests, cap);
      var ours, theirs := Replies(DoubleStep, requests, cap), Replies(TableStep, requests, cap);
      assert ours[..n] == Replies(DoubleStep, front, cap) && theirs[..n] == Replies(TableStep, front, cap);
      if AllAlike(front, cap) {
        OneRequest(After(TableStep, front, cap), After(DoubleStep, front, cap), requests[n], cap);
      }
    }
  }

  lemma NoRequests(cap: real)
    ensures AllAlike([], cap) && Mirrors(After(TableStep, [], cap), After(DoubleStep, [], cap))
  {
  }

  // --- Totals of one day and of all days ---------------------------------------------------------------------

  predicate Whole(usd: real) { Stored(usd) == usd }

  predicate WholeRow(b: Booking) {
    && b.estimated >= 0.0 && Whole(b.estimated)
    && (b.actual.Some? ==> b.actual.value >= 0.0 && Whole(b.actual.value))
  }

  /** In whole micro-dollars a day's total is at most the total of all days, and equal when there is no other day. */
  lemma {:induction false} DayWithinTotal(table: seq<Entry>, rows: seq<Booking>, day: nat)
    requires Mirrors(table, rows) && forall i :: 0 <= i < |rows| ==> WholeRow(rows[i])
    ensures 0.0 <= Committed(OfDay(table, day)) <= Committed(rows)
    ensures (forall i :: 0 <= i < |table| ==> table[i].day == day) ==> Committed(OfDay(table, day)) == Committed(rows)
    decreases |rows|
  {
    hide Stored;
    if rows != [] {
      var n := |rows| - 1;
      DayWithinTotal(table[..n], rows[..n], day);
      assert table[n].booking == rows[n];
      CommittedSnoc(OfDay(table[..n], day), rows[n]);
    }
  }

  lemma CommittedSnoc(rows: seq<Booking>, b: Booking)
    ensures Committed(rows + [b]) == Committed(rows) + Counts(b)
  {
    assert (rows + [b])[..|rows|] == rows;
  }

  /**
   * What a request of one day in whole micro-dollars must be like: the totals agree then, so all that is
   * left are the checks the double does not make.
   */
  predicate Checked(rows: seq<Booking>, request: Request) {
    match request
    case Reserve(_, endpoint, estimated) => estimated > 0.0 && endpoint != ""
    case Settle(id, actual, rowCount) => actual >= 0.0 && IsInt32(rowCount) && (IsOpen(rows, id) ==> Fits(actual))
    case Today(_) => true
  }

  predicate InDay(request: Request, day: nat) {
    match request
    case Reserve(d, _, estimated) => d == day && Whole(estimated)
    case Settle(_, actual, _) => Whole(actual)
    case Today(d) => d == day
  }

  ghost predicate AllChecked(requests: seq<Request>, cap: real) {
    forall i :: 0 <= i < |requests| ==> Checked(After(DoubleStep, requests[..i], cap), requests[i])
  }

  ghost predicate DayRows(table: seq<Entry>, rows: seq<Booking>, day: nat) {
    && Mirrors(table, rows) && (forall i :: 0 <= i < |table| ==> table[i].day == day)
    && forall i :: 0 <= i < |rows| ==> WholeRow(rows[i])
  }

  lemma RequestInDay(table: seq<Entry>, rows: seq<Booking>, request: Request, day: nat, cap: real)
    requires DayRows(table, rows, day) && InDay(request, day) && cap < 1000000.0
    ensures Alike(table, rows, request, cap) <==> Checked(rows, request)
    ensures Checked(rows, request) ==> DayRows(TableStep(table, request, cap).0, DoubleStep(rows, request, cap).0, day)
  {
    hide Committed, OfDay, Stored;
    DayWithinTotal(table, rows, day);
    OneRequest(table, rows, request, cap);
  }

  lemma AllCheckedSnoc(requests: seq<Request>, cap: real)
    requires requests != []
    ensures var front := requests[..|requests| - 1];
            AllChecked(requests, cap) <==>
              AllChecked(front, cap) && Checked(After(DoubleStep, front, cap), requests[|requests| - 1])
  {
    hide Checked, After;
    var front := requests[..|requests| - 1];
    if AllChecked(requests, cap) {
      forall i | 0 <= i < |front| ensures Checked(After(DoubleStep, front[..i], cap), front[i]) {
        assert front[..i] == requests[..i];
      }
    } else if AllChecked(front, cap) {
      forall i | 0 <= i < |front| ensures Checked(After(DoubleStep, requests[..i], cap), requests[i]) {
        assert front[..i] == requests[..i] && front[i] == requests[i];
      }
    }
  }

  lemma {:induction false} CheckedIsAlike(requests: seq<Request>, day: nat, cap: real)
    requires cap < 1000000.0 && forall i :: 0 <= i < |requests| ==> InDay(requests[i], day)
    ensures AllAlike(requests, cap) <==> AllChecked(requests, cap)
    ensures AllChecked(requests, cap) ==> DayRows(After(TableStep, requests, cap), After(DoubleStep, requests, cap), day)
    decreases |requests|
  {
    hide Alike, AllAlike, AllChecked, Checked, TableStep, DoubleStep, DayRows, InDay;
    if requests == [] {
      NoRequestsInDay(day, cap);
    } else {
      var n := |requests| - 1;
      var front := requests[..n];
      assert forall i :: 0 <= i < n ==> front[i] == requests[i];
      CheckedIsAlike(front, day, cap);
      AllAlikeSnoc(requests, cap);
      AllCheckedSnoc(requests, cap);
      if AllChecked(front, cap) {
        RequestInDay(After(TableStep, front, cap), After(DoubleStep, front, cap), requests[n], day, cap);
      }
    }
  }

  lemma NoRequestsInDay(day: nat, cap: real)
    ensures AllAlike([], cap) && AllChecked([], cap) && DayRows(After(TableStep, [], cap), After(DoubleStep, [], cap), day)
  {
  }

  /**
   * Within one day and in whole micro-dollars, the two answer alike if and only if every estimate is
   * positive and names its endpoint, and every cost is not negative, has a row count of 32 bits and,
   * for an open row, fits the column.
   */
  lemma SameAnswersInOneDay(requests: seq<Request>, day: nat, cap: real)
    requires cap < 1000000.0 && forall i :: 0 <= i < |requests| ==> InDay(requests[i], day)
    ensures Replies(DoubleStep, requests, cap) == Replies(TableStep, requests, cap) <==> AllChecked(requests, cap)
  {
    SameAnswersExactly(requests, cap);
    CheckedIsAlike(requests, day, cap);
  }

  // --- Calls that tell them apart ------------------------------------------------------------------------------

  lemma OneMore<S>(ledger: Ledger<S>, requests: seq<Request>, request: Request, cap: real)
    ensures var (rows, reply) := ledger(After(ledger, requests, cap), request, cap);
            && After(ledger, requests + [request], cap) == rows
            && Replies(ledger, requests + [request], cap) == Replies(ledger, requests, cap) + [reply]
  {
    assert (requests + [request])[..|requests|] == requests;
  }

  /** Two calls from the start, on either ledger. */
  lemma TwoCalls<S>(ledger: Ledger<S>, first: Request, second: Request, cap: real)
    ensures var (rows, one) := ledger([], first, cap);
            Replies(ledger, [first, second], cap) == [one, ledger(rows, second, cap).1]
  {
    OneMore(ledger, [], first, cap);
    OneMore(ledger, [first], second, cap);
    assert [] + [first] == [first] && [first] + [second] == [first, second];
    assert After(ledger, [], cap) == [] && Replies(ledger, [], cap) == [];
  }

  lemma BudgetFits(usd: real)
    requires 0.0 < usd <= DAILY_BUDGET_USD
    ensures Fits(usd)
  {
    assert (usd * 1000000.0 + 0.5).Floor <= 3000000;
  }

  lemma OneRow(entry: Entry)
    ensures OfDay([entry], entry.day) == [entry.booking] && OfDay([entry], entry.day + 1) == []
    ensures Committed([entry.booking]) == Counts(entry.booking)
  {
    assert [entry][..0] == [] && [] + [entry.booking] == [entry.booking] && [entry.booking][..0] == [];
  }

  lemma NoRows(day: nat)
    ensures OfDay([], day) == [] && Committed([]) == 0.0
  {
  }

  /** A first booking, on either ledger. */
  lemma FirstBooking(endpoint: string, estimated: real)
    requires endpoint != "" && 0.0 < estimated <= DAILY_BUDGET_USD
    ensures var request, entry := Reserve(0, endpoint, estimated), Entry(0, endpoint, Booking(Stored(estimated), None), None);
            && TableStep([], request, DAILY_BUDGET_USD) == ([entry], Booked(0))
            && DoubleStep([], request, DAILY_BUDGET_USD) == ([Booking(estimated, None)], Booked(0))
            && OfDay([entry], 0) == [entry.booking] && OfDay([entry], 1) == [] && Committed([entry.booking]) == Stored(estimated)
            && Committed([Booking(estimated, None)]) == estimated
  {
    hide Fits, Stored, Committed, OfDay;
    var entry := Entry(0, endpoint, Booking(Stored(estimated), None), None);
    var table: seq<Entry>, rows: seq<Booking> := [], [];
    BudgetFits(estimated);
    NoRows(0);
    OneRow(entry);
    OneRow(entry.(booking := Booking(estimated, None)));
    assert table + [entry] == [entry] && rows + [Booking(estimated, None)] == [Booking(estimated, None)];
  }

  /** Two bookings on either side of midnight: the table has a new day's budget, the double does not. */
  lemma MidnightCounterexample(endpoint: string)
    requires endpoint != ""
    ensures var requests := [Reserve(0, endpoint, 2.0), Reserve(1, endpoint, 2.0)];
            && Replies(TableStep, requests, DAILY_BUDGET_USD) == [Booked(0), Booked(1)]
            && Replies(DoubleStep, requests, DAILY_BUDGET_USD) == [Booked(0), Rejected(OverBudget)]
  {
    var one, two := Reserve(0, endpoint, 2.0), Reserve(1, endpoint, 2.0);
    TwoCalls(TableStep, one, two, DAILY_BUDGET_USD);
    TwoCalls(DoubleStep, one, two, DAILY_BUDGET_USD);
    NoRows(1);
    FirstBooking(endpoint, 2.0);
    assert Stored(2.0) == 2.0;
  }

  /** The table also refuses what names no endpoint, and the double books it; both go on to the day's total. */
  lemma NoEndpointCounterexample()
    ensures var requests := [Reserve(0, "", 0.5), Today(0)];
            && Replies(TableStep, requests, DAILY_BUDGET_USD) == [Rejected(InvalidEndpoint), Spent(0.0)]
            && Replies(DoubleStep, requests, DAILY_BUDGET_USD) == [Booked(0), Spent(0.5)]
  {
    TwoCalls(TableStep, Reserve(0, "", 0.5), Today(0), DAILY_BUDGET_USD);
    TwoCalls(DoubleStep, Reserve(0, "", 0.5), Today(0), DAILY_BUDGET_USD);
    assert DoubleStep([], Reserve(0, "", 0.5), DAILY_BUDGET_USD) == ([Booking(0.5, None)], Booked(0));
  }

  /** Costs that the column cannot hold, or that are below zero, settle on the double only. */
  lemma CostCounterexample(endpoint: string, cost: real)
    requires endpoint != "" && (cost < 0.0 || !Fits(cost))
    ensures var requests := [Reserve(0, endpoint, 1.0), Settle(0, cost, 0)];
            && Replies(TableStep, requests, DAILY_BUDGET_USD) == [Booked(0), Rejected(if cost < 0.0 then InvalidActual else Overflow)]
            && Replies(DoubleStep, requests, DAILY_BUDGET_USD) == [Booked(0), Done]
  {
    var one, two := Reserve(0, endpoint, 1.0), Settle(0, cost, 0);
    TwoCalls(TableStep, one, two, DAILY_BUDGET_USD);
    TwoCalls(DoubleStep, one, two, DAILY_BUDGET_USD);
    FirstBooking(endpoint, 1.0);
  }

  /** Below a micro-dollar the table rounds what it stores: here up to the cap, where the double has room left. */
  lemma RoundingCounterexample(endpoint: string)
    requires endpoint != ""
    ensures var requests := [Reserve(0, endpoint, 2.9999996), Reserve(0, endpoint, 0.0000004)];
            && Replies(TableStep, requests, DAILY_BUDGET_USD) == [Booked(0), Rejected(OverBudget)]
            && Replies(DoubleStep, requests, DAILY_BUDGET_USD) == [Booked(0), Booked(1)]
  {
    var one, two := Reserve(0, endpoint, 2.9999996), Reserve(0, endpoint, 0.0000004);
    TwoCalls(TableStep, one, two, DAILY_BUDGET_USD);
    TwoCalls(DoubleStep, one, two, DAILY_BUDGET_USD);
    assert Stored(2.9999996) == 3.0;
    FirstBooking(endpoint, 2.9999996);
  }

  /** An estimate of nothing or less is booked by the double whenever the cap admits it, and never by the table. */
  lemma EstimateCounterexample(endpoint: string, estimated: real)
    requires estimated <= 0.0
    ensures var requests := [Reserve(0, endpoint, estimated), Today(0)];
            && Replies(TableStep, requests, DAILY_BUDGET_USD) == [Rejected(InvalidEstimate), Spent(0.0)]
            && Replies(DoubleStep, requests, DAILY_BUDGET_USD) == [Booked(0), Spent(estimated)]
  {
    TwoCalls(TableStep, Reserve(0, endpoint, estimated), Today(0), DAILY_BUDGET_USD);
    TwoCalls(DoubleStep, Reserve(0, endpoint, estimated), Today(0), DAILY_BUDGET_USD);
    assert DoubleStep([], Reserve(0, endpoint, estimated), DAILY_BUDGET_USD) == ([Booking(estimated, None)], Booked(0));
  }
}
