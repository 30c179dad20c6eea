/**
 * The in-memory double of the spend ledger: no day, no check of what it is told, one process.
 */
module MemoryLedger {
  import opened Options
  import opened SpendLedger

  /** The test double checks the cap and nothing else about an estimate. */
  function MemoryBook(rows: seq<Booking>, estimated: real, cap: real): Answer {
    if Committed(rows) + estimated > cap then Err(OverBudget) else Ok(rows + [Booking(estimated, None)])
  }

  /** It looks for the booking and takes any cost. */
  function MemoryClose(rows: seq<Booking>, id: nat, actual: real): Answer {
    if id >= |rows| then Err(UnknownReservation)
    else if rows[id].actual.Some? then Err(AlreadySettled)
    else Ok(rows[id := rows[id].(actual := Some(actual))])
  }

  datatype MemoryRow = MemoryRow(id: nat, endpoint: string, estimated: real, actual: Option<real>, rowCount: Option<int>)

  datatype Failure = Broken | Refused(error: Error)

  /** The test double of the database counter, kept in process memory. */
  class MemorySpendLedger {
    const cap: real
    var rows: seq<MemoryRow>
    var issued: nat
    var broken: bool

    constructor (cap: real)
      ensures Valid() && Bookings() == [] && this.cap == cap && !broken
    {
      this.cap := cap;
      rows, issued, broken := [], 0, false;
    }

    /** Ids are handed out in order, so the row with id `n` is row `n - 1`. */
    ghost predicate Valid()
      reads this
    {
      issued == |rows| && forall i :: 0 <= i < |rows| ==> rows[i].id == i + 1
    }

    ghost function Bookings(): (b: seq<Booking>)
      reads this
      ensures |b| == |rows| && forall i :: 0 <= i < |rows| ==> b[i] == Booking(rows[i].estimated, rows[i].actual)
    {
      seq(|rows|, i requires 0 <= i < |rows| reads this => Booking(rows[i].estimated, rows[i].actual))
    }

    method TodayUsd() returns (total: Option<real>)
      requires Valid()
      ensures total == if broken then None else Some(Committed(Bookings()))
    {
      if broken { return None; }
      var sum := Sum();
      return Some(sum);
    }

    method Sum() returns (sum: real)
      requires Valid()
      ensures sum == Committed(Bookings())
    {
      sum := 0.0;
      ghost var all := Bookings();
      for i := 0 to |rows|
        invariant sum == Committed(all[..i])
      {
        assert all[..i + 1][..i] == all[..i];
        sum := sum + (if rows[i].actual.Some? then rows[i].actual.value else rows[i].estimated);
      }
      assert all[..|rows|] == all;
    }

    /** Book `estimated`, whatever its sign and for whatever endpoint, unless the cap refuses it. */
    method Reserve(estimated: real, endpoint: string) returns (id: nat, failure: Option<Failure>)
      requires Valid()
      modifies this`rows, this`issued
      ensures Valid()
      ensures failure == Some(Broken) <==> old(broken)
      ensures rows == if failure.Some? then old(rows) else old(rows) + [MemoryRow(id, endpoint, estimated, None, None)]
      ensures !broken ==>
                match MemoryBook(old(Bookings()), estimated, cap)
                case Ok(rows') => failure.None? && id == |rows| && Bookings() == rows'
                case Err(error) => failure == Some(Refused(error))
    {
      if broken { return 0, Some(Broken); }
      var spent := Sum();
      if spent + estimated > cap { return 0, Some(Refused(OverBudget)); }
      ghost var before := Bookings();
      issued := issued + 1;
      rows := rows + [MemoryRow(issued, endpoint, estimated, None, None)];
      assert Bookings() == before + [Booking(estimated, None)];
      return issued, None;
    }

    /** Settle the row with the given id at any cost; no row has the id 0. */
    method Settle(id: nat, actual: real, rowCount: int) returns (failure: Option<Failure>)
      requires Valid()
      modifies this`rows
      ensures Valid()
      ensures failure == Some(Broken) <==> old(broken)
      ensures failure.Some? ==> rows == old(rows)
      ensures failure.None? ==>
                0 < id <= |old(rows)| && rows == old(rows)[id - 1 := old(rows)[id - 1].(actual := Some(actual), rowCount := Some(rowCount))]
      ensures !broken && id == 0 ==> failure == Some(Refused(UnknownReservation))
      ensures !broken && id > 0 ==>
                match MemoryClose(old(Bookings()), id - 1, actual)
                case Ok(rows') => failure.None? && Bookings() == rows'
                case Err(error) => failure == Some(Refused(error))
    {
      if broken { return Some(Broken); }
      var i := 0;
      while i < |rows| && rows[i].id != id
        invariant i <= |rows| && forall k :: 0 <= k < i ==> rows[k].id != id
      {
        i := i + 1;
      }
      if i == |rows| { return Some(Refused(UnknownReservation)); }
      if rows[i].actual.Some? { return Some(Refused(AlreadySettled)); }
      ghost var before := Bookings();
      rows := rows[i := rows[i].(actual := Some(actual), rowCount := Some(rowCount))];
      assert Bookings() == before[i := before[i].(actual := Some(actual))];
      return None;
    }

    method BreakWith(broken: bool)
      requires Valid()
      modifies this`broken
      ensures Valid() && this.broken == broken && Bookings() == old(Bookings())
    {
      this.broken := broken;
    }

    /** Book spend that is already settled: the day has cost this much before. */
    method Seed(usd: real, endpoint: string)
      requires Valid()
      modifies this`rows, this`issued
      ensures Valid() && Bookings() == old(Bookings()) + [Booking(usd, Some(usd))]
    {
      ghost var before := Bookings();
      issued := issued + 1;
      rows := rows + [MemoryRow(issued, endpoint, usd, Some(usd), Some(0))];
      assert Bookings() == before + [Booking(usd, Some(usd))];
    }
  }
}
