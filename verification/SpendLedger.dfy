/**
 * The fleet-wide counter of vendor spend for one UTC day: bookings count at their estimate while
 * open and at their settled cost afterwards, and a booking that would pass the cap is refused.
 */
module SpendLedger {
  import opened Options

  const DAILY_BUDGET_USD: real := 3.0

  datatype Booking = Booking(estimated: real, actual: Option<real>)

  datatype Error =
    | InvalidEstimate
    | InvalidEndpoint
    | OverBudget
    | InvalidRowCount
    | InvalidActual
    | UnknownReservation
    | AlreadySettled
    | Overflow

  datatype Answer = Ok(rows: seq<Booking>) | Err(error: Error)

  /** What one booking counts for. */
  function Counts(b: Booking): real { if b.actual.Some? then b.actual.value else b.estimated }

  function Committed(rows: seq<Booking>): real {
    if rows == [] then 0.0 else Committed(rows[..|rows| - 1]) + Counts(rows[|rows| - 1])
  }

  /** Check the cap and book, indivisibly. The new booking's id is its position. */
  function Book(rows: seq<Booking>, estimated: real, cap: real): Answer {
    if estimated <= 0.0 then Err(InvalidEstimate)
    else if Committed(rows) + estimated > cap then Err(OverBudget)
    else Ok(rows + [Booking(estimated, None)])
  }

  /** Replace an open booking's estimate by its cost. */
  function Close(rows: seq<Booking>, id: nat, actual: real): Answer {
    if actual < 0.0 then Err(InvalidActual)
    else if id >= |rows| then Err(UnknownReservation)
    else if rows[id].actual.Some? then Err(AlreadySettled)
    else Ok(rows[id := rows[id].(actual := Some(actual))])
  }

  lemma {:induction false} CommittedUpdate(rows: seq<Booking>, id: nat, b: Booking)
    requires id < |rows|
    ensures Committed(rows[id := b]) == Committed(rows) - Counts(rows[id]) + Counts(b)
    decreases |rows|
  {
    var n := |rows| - 1;
    assert rows[id := b][..n] == if id < n then rows[..n][id := b] else rows[..n];
    if id < n {
      CommittedUpdate(rows[..n], id, b);
    }
  }

  /** A reservation the cap admits keeps the day within it; settling within the estimate does too. */
  lemma WithinCap(rows: seq<Booking>, cap: real)
    requires Committed(rows) <= cap
    ensures forall estimated :: Book(rows, estimated, cap).Ok? ==> Committed(Book(rows, estimated, cap).rows) <= cap
    ensures forall id: nat, actual :: Close(rows, id, actual).Ok? && actual <= rows[id].estimated ==>
              Committed(Close(rows, id, actual).rows) <= Committed(rows)
  {
    forall estimated | Book(rows, estimated, cap).Ok? ensures Committed(Book(rows, estimated, cap).rows) <= cap {
      var rows' := Book(rows, estimated, cap).rows;
      assert rows'[..|rows'| - 1] == rows;
    }
    forall id: nat, actual | Close(rows, id, actual).Ok? && actual <= rows[id].estimated
      ensures Committed(Close(rows, id, actual).rows) <= Committed(rows)
    {
      CommittedUpdate(rows, id, rows[id].(actual := Some(actual)));
    }
  }

  // --- What a day's total is, and who is let through ------------------------------------------------

  /** The estimates of the bookings still open. */
  function OpenEstimates(rows: seq<Booking>): real {
    if rows == [] then 0.0
    else
      var last := rows[|rows| - 1];
      OpenEstimates(rows[..|rows| - 1]) + (if last.actual.None? then last.estimated else 0.0)
  }

  /** The costs of the bookings settled. */
  function SettledCosts(rows: seq<Booking>): real {
    if rows == [] then 0.0
    else
      var last := rows[|rows| - 1];
      SettledCosts(rows[..|rows| - 1]) + (if last.actual.Some? then last.actual.value else 0.0)
  }

  lemma {:induction false} CommittedIsOpenAndSettled(rows: seq<Booking>)
    ensures Committed(rows) == OpenEstimates(rows) + SettledCosts(rows)
    decreases |rows|
  {
    if rows != [] { CommittedIsOpenAndSettled(rows[..|rows| - 1]); }
  }

  /** A positive estimate is booked exactly when the open estimates and the settled costs leave room for it. */
  lemma BookedExactly(rows: seq<Booking>, estimated: real, cap: real)
    ensures Book(rows, estimated, cap).Ok? <==> 0.0 < estimated <= cap - OpenEstimates(rows) - SettledCosts(rows)
    ensures Book(rows, estimated, cap).Ok? ==>
              var rows' := Book(rows, estimated, cap).rows;
              && |rows'| == |rows| + 1 && rows <= rows' && rows'[|rows|] == Booking(estimated, None)
              && OpenEstimates(rows') == OpenEstimates(rows) + estimated && SettledCosts(rows') == SettledCosts(rows)
  {
    CommittedIsOpenAndSettled(rows);
    if Book(rows, estimated, cap).Ok? {
      var rows' := Book(rows, estimated, cap).rows;
      assert rows'[..|rows'| - 1] == rows;
    }
  }

  /**
   * Settling gives back what a booking's estimate held over its cost: an estimate is admitted after it
   * exactly when it fits the room there was and the difference.
   */
  lemma SettlingMakesRoom(rows: seq<Booking>, id: nat, actual: real, estimated: real, cap: real)
    requires id < |rows| && rows[id].actual.None? && actual >= 0.0
    ensures Close(rows, id, actual).Ok?
    ensures Book(Close(rows, id, actual).rows, estimated, cap).Ok? <==>
              0.0 < estimated <= cap - Committed(rows) + (rows[id].estimated - actual)
  {
    CommittedUpdate(rows, id, rows[id].(actual := Some(actual)));
  }
}
