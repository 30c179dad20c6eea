/**
 * The daily allowance of vendor spend an account was never charged for. The counter reads a capped
 * number of rows in no particular order; amounts are whole micro-dollars, the precision at which
 * the program compares them.
 */
module FreeAllowance {
  import opened Options

  datatype Price = Price(tool: string, micro: int)

  /** A released spend of the day, by the tool it was for; the tool may be missing or unknown. */
  type Row = Option<string>

  ghost predicate Positive(table: seq<Price>) {
    table != [] && forall i :: 0 <= i < |table| ==> table[i].micro > 0
  }

  function Cheapest(table: seq<Price>): (m: int)
    requires table != []
    ensures (exists i :: 0 <= i < |table| && table[i].micro == m) && forall i :: 0 <= i < |table| ==> m <= table[i].micro
  {
    if |table| == 1 then table[0].micro
    else
      var m, last := Cheapest(table[..|table| - 1]), table[|table| - 1].micro;
      if last < m then last else m
  }

  function Dearest(table: seq<Price>): (m: int)
    requires table != []
    ensures (exists i :: 0 <= i < |table| && table[i].micro == m) && forall i :: 0 <= i < |table| ==> m >= table[i].micro
  {
    if |table| == 1 then table[0].micro
    else
      var m, last := Dearest(table[..|table| - 1]), table[|table| - 1].micro;
      if last > m then last else m
  }

  function Lookup(table: seq<Price>, tool: string): Option<int> {
    if table == [] then None
    else if table[|table| - 1].tool == tool then Some(table[|table| - 1].micro)
    else Lookup(table[..|table| - 1], tool)
  }

  /** A tool the table does not know counts as the dearest call, never as a free one. */
  function EstimateFor(table: seq<Price>, row: Row): int
    requires table != []
  {
    if row.None? then Dearest(table)
    else
      var known := Lookup(table, row.value);
      if known.Some? then known.value else Dearest(table)
  }

  function Used(table: seq<Price>, rows: seq<Row>): int
    requires table != []
  {
    if rows == [] then 0 else Used(table, rows[..|rows| - 1]) + EstimateFor(table, rows[|rows| - 1])
  }

  function CeilDiv(a: int, b: int): (q: int)
    requires b > 0
    ensures (q - 1) * b < a <= q * b
  {
    var q := a / b;
    if q * b == a then q else q + 1
  }

  /** How many rows the counter asks for, derived from a budget and the cheapest price. */
  function MaxCountedRows(table: seq<Price>, budget: int): int
    requires Positive(table)
  {
    CeilDiv(budget, Cheapest(table)) + 1
  }

  /** What a query without an order may return under a row cap: any that many of the rows. */
  ghost predicate Returned(rows: seq<Row>, returned: seq<Row>, cap: nat) {
    multiset(returned) <= multiset(rows) && |returned| == if |rows| <= cap then |rows| else cap
  }

  predicate Admits(used: int, budget: int) { used < budget }

  // --- Truncated counting ------------------------------------------------------------------------

  lemma {:induction false} EstimateInRange(table: seq<Price>, row: Row)
    requires Positive(table)
    ensures Cheapest(table) <= EstimateFor(table, row) <= Dearest(table) && Cheapest(table) > 0
  {
    if row.Some? { LookupInTable(table, row.value); }
  }

  lemma {:induction false} LookupInTable(table: seq<Price>, tool: string)
    ensures Lookup(table, tool).Some? ==> exists i :: 0 <= i < |table| && table[i].micro == Lookup(table, tool).value
    decreases |table|
  {
    if table != [] && table[|table| - 1].tool != tool {
      LookupInTable(table[..|table| - 1], tool);
    }
  }

  lemma OneMore(n: int, c: int)
    ensures (n + 1) * c == n * c + c
  {
  }

  lemma {:induction false} UsedAtLeast(table: seq<Price>, rows: seq<Row>)
    requires Positive(table)
    ensures Used(table, rows) >= |rows| * Cheapest(table) >= 0
    decreases |rows|
  {
    hide EstimateFor, Cheapest;
    if rows != [] {
      var n := |rows| - 1;
      UsedAtLeast(table, rows[..n]);
      EstimateInRange(table, rows[n]);
      OneMore(n, Cheapest(table));
    }
  }

  lemma {:induction false} UsedWithout(table: seq<Price>, rows: seq<Row>, i: nat)
    requires table != [] && i < |rows|
    ensures Used(table, rows) == Used(table, rows[..i] + rows[i + 1..]) + EstimateFor(table, rows[i])
    decreases |rows|
  {
    hide EstimateFor;
    var n := |rows| - 1;
    if i == n {
      assert rows[..i] + rows[i + 1..] == rows[..n];
    } else {
      var rest := rows[..i] + rows[i + 1..];
      UsedWithout(table, rows[..n], i);
      assert rest[..|rest| - 1] == rows[..n][..i] + rows[..n][i + 1..];
      assert rest[|rest| - 1] == rows[n];
    }
  }

  lemma WithoutOne(rows: seq<Row>, i: nat)
    requires i < |rows|
    ensures multiset(rows) == multiset(rows[..i] + rows[i + 1..]) + multiset{rows[i]}
  {
    assert rows == rows[..i] + [rows[i]] + rows[i + 1..];
  }

  lemma PartWithoutLast(part: seq<Row>, rows: seq<Row>) returns (i: nat)
    requires part != [] && multiset(part) <= multiset(rows)
    ensures i < |rows| && rows[i] == part[|part| - 1]
    ensures multiset(part[..|part| - 1]) <= multiset(rows[..i] + rows[i + 1..])
  {
    var n := |part| - 1;
    assert part[n] in multiset(part);
    assert part[n] in multiset(rows);
    i :| 0 <= i < |rows| && rows[i] == part[n];
    WithoutOne(rows, i);
    WithoutOne(part, n);
    assert part[..n] + part[n + 1..] == part[..n];
    var before, after := multiset(part[..n]), multiset(rows[..i] + rows[i + 1..]);
    forall x ensures before[x] <= after[x] {
      assert multiset(part)[x] <= multiset(rows)[x];
    }
  }

  /** Any part of the rows sums to at most all of them. */
  lemma {:induction false} PartSumsToLess(table: seq<Price>, part: seq<Row>, rows: seq<Row>)
    requires table != [] && Positive(table) && multiset(part) <= multiset(rows)
    ensures Used(table, part) <= Used(table, rows)
    ensures |part| == |rows| ==> Used(table, part) == Used(table, rows)
    ensures |part| <= |rows|
    decreases |part|
  {
    hide EstimateFor, Positive, Used, Cheapest;
    if part == [] {
      UsedAtLeast(table, rows);
      UsedNothing(table);
      if rows == [] { assert part == rows; }
    } else {
      var n := |part| - 1;
      var i := PartWithoutLast(part, rows);
      assert part[..n] + [part[n]] == part;
      UsedSnoc(table, part[..n], part[n]);
      UsedWithout(table, rows, i);
      PartSumsToLess(table, part[..n], rows[..i] + rows[i + 1..]);
    }
  }

  /** Once as many rows exist as the counter asks for, any that many of them are past the budget. */
  lemma FullPageIsPastBudget(table: seq<Price>, budget: int, rowCap: nat, returned: seq<Row>)
    requires Positive(table) && budget <= rowCap * Cheapest(table) && |returned| == rowCap
    ensures !Admits(Used(table, returned), budget)
  {
    UsedAtLeast(table, returned);
  }

  /**
   * Truncated counting is lossless: whatever rows the database returns at the row cap, the
   * decision is the one the full sum would give.
   */
  lemma TruncationIsLossless(table: seq<Price>, budget: int, rows: seq<Row>, returned: seq<Row>)
    requires Positive(table) && budget >= 0 && Returned(rows, returned, MaxCountedRows(table, budget))
    ensures Admits(Used(table, returned), budget) <==> Admits(Used(table, rows), budget)
  {
    CapCoversBudget(table, budget);
    SameDecision(table, budget, MaxCountedRows(table, budget), rows, returned);
  }

  lemma CapCoversBudget(table: seq<Price>, budget: int)
    requires Positive(table) && budget >= 0
    ensures MaxCountedRows(table, budget) >= 1 && budget <= MaxCountedRows(table, budget) * Cheapest(table)
  {
    var c, q := Cheapest(table), CeilDiv(budget, Cheapest(table));
    OneMore(q, c);
    NotNegative(q, c);
  }

  lemma NotNegative(q: int, c: int)
    requires c > 0 && q * c >= 0
    ensures q >= 0
  {
  }

  lemma SameDecision(table: seq<Price>, budget: int, rowCap: nat, rows: seq<Row>, returned: seq<Row>)
    requires Positive(table) && budget <= rowCap * Cheapest(table) && Returned(rows, returned, rowCap)
    ensures Admits(Used(table, returned), budget) <==> Admits(Used(table, rows), budget)
  {
    PartSumsToLess(table, returned, rows);
    if |rows| > rowCap {
      FullPageIsPastBudget(table, budget, rowCap, returned);
    }
  }

  /**
   * The row cap is fixed from one budget while the gate takes its budget as a parameter. The two
   * agree on every ledger exactly when the cap times the cheapest price reaches the gate's budget;
   * beyond it there is an account the full sum refuses and the truncated count admits.
   */
  lemma CapFitsExactlyThisMuch(table: seq<Price>, budget: int, rowCap: nat)
    requires Positive(table) && budget >= 0 && Known(table)
    ensures budget <= rowCap * Cheapest(table) <==>
              forall rows, returned :: Returned(rows, returned, rowCap) ==>
                (Admits(Used(table, returned), budget) <==> Admits(Used(table, rows), budget))
  {
    if budget <= rowCap * Cheapest(table) {
      forall rows, returned | Returned(rows, returned, rowCap)
        ensures Admits(Used(table, returned), budget) <==> Admits(Used(table, rows), budget)
      {
        SameDecision(table, budget, rowCap, rows, returned);
      }
    } else {
      var i :| 0 <= i < |table| && table[i].micro == Cheapest(table);
      var cheap := Some(table[i].tool);
      assert EstimateFor(table, cheap) == Cheapest(table) by { KnownPrice(table, i); }
      var n := rowCap + budget;
      var returned, rows := seq(rowCap, _ => cheap), seq(n, _ => cheap);
      UsedConstant(table, cheap, rowCap);
      UsedConstant(table, cheap, n);
      assert rows == returned + seq(budget, _ => cheap);
      assert Returned(rows, returned, rowCap);
      assert n * Cheapest(table) >= budget by { LeastProduct(n, Cheapest(table)); }
      assert Admits(Used(table, returned), budget) && !Admits(Used(table, rows), budget);
    }
  }

  lemma LeastProduct(n: nat, c: int)
    requires c >= 1
    ensures n * c >= n
  {
  }

  /** No tool is priced twice. */
  ghost predicate Known(table: seq<Price>) {
    forall i, j :: 0 <= i < j < |table| ==> table[i].tool != table[j].tool
  }

  lemma {:induction false} KnownPrice(table: seq<Price>, i: nat)
    requires Known(table) && i < |table|
    ensures Lookup(table, table[i].tool) == Some(table[i].micro)
    decreases |table|
  {
    if i < |table| - 1 {
      KnownPrice(table[..|table| - 1], i);
    }
  }

  /** A tool the table prices counts at its own price; a missing or unknown one at the dearest. */
  lemma PricedAtItsOwn(table: seq<Price>, row: Row)
    requires Positive(table) && Known(table)
    ensures (exists i :: 0 <= i < |table| && row == Some(table[i].tool) && EstimateFor(table, row) == table[i].micro)
            || ((row.None? || forall i :: 0 <= i < |table| ==> table[i].tool != row.value) && EstimateFor(table, row) == Dearest(table))
  {
    if row.Some? {
      LookupInTable(table, row.value);
      if i :| 0 <= i < |table| && table[i].tool == row.value { KnownPrice(table, i); } else { UnknownPrice(table, row.value); }
    }
  }

  lemma {:induction false} UnknownPrice(table: seq<Price>, tool: string)
    requires forall i :: 0 <= i < |table| ==> table[i].tool != tool
    ensures Lookup(table, tool).None?
  {
    if table != [] { UnknownPrice(table[..|table| - 1], tool); }
  }

  lemma {:induction false} UsedConstant(table: seq<Price>, row: Row, n: nat)
    requires table != []
    ensures Used(table, seq(n, _ => row)) == n * EstimateFor(table, row)
  {
    hide EstimateFor;
    if n > 0 {
      var rows := seq(n, _ => row);
      assert rows[..n - 1] == seq(n - 1, _ => row);
      UsedConstant(table, row, n - 1);
      OneMore(n - 1, EstimateFor(table, row));
    }
  }

  // --- What an account can spend -------------------------------------------------------------------

  /** A call at the gate, with what the counter returned to it; `None` when it cannot be read. */
  datatype Call = Call(tool: Row, read: Option<seq<Row>>)

  /** One account's day: the rows released so far, the calls at the gate and the vendor calls now out. */
  datatype Account = Account(rows: seq<Row>, gate: seq<Call>, out: seq<Row>)

  /**
   * A call reads the counter, and at some later moment is let through or refused on what it read.
   * A call that was let through ends charged, or released and so counted from then on.
   */
  datatype Event = Read(tool: Row, read: Option<seq<Row>>) | Decide(i: nat) | End(i: nat, charged: bool)

  predicate Gate(table: seq<Price>, budget: int, read: Option<seq<Row>>)
    requires table != []
  {
    read.Some? && Admits(Used(table, read.value), budget)
  }

  function Without<T>(s: seq<T>, i: nat): seq<T>
    requires i < |s|
  {
    s[..i] + s[i + 1..]
  }

  function Next(table: seq<Price>, budget: int, account: Account, event: Event): Account
    requires table != []
  {
    match event
    case Read(tool, read) => account.(gate := account.gate + [Call(tool, read)])
    case Decide(i) =>
      if i >= |account.gate| then account
      else
        var call := account.gate[i];
        account.(gate := Without(account.gate, i),
                 out := if Gate(table, budget, call.read) then account.out + [call.tool] else account.out)
    case End(i, charged) =>
      if i >= |account.out| then account
      else
        account.(rows := if charged then account.rows else account.rows + [account.out[i]], out := Without(account.out, i))
  }

  function Day(table: seq<Price>, budget: int, events: seq<Event>): Account
    requires table != []
  {
    if events == [] then Account([], [], []) else Next(table, budget, Day(table, budget, events[..|events| - 1]), events[|events| - 1])
  }

  /**
   * Every reading is an honest one of the moment it was taken, however old it is when it decides, and
   * at most `width` calls stand at the gate or are out at a time.
   */
  ghost predicate Honest(table: seq<Price>, budget: int, events: seq<Event>, width: nat)
    requires Positive(table) && budget >= 0
  {
    CapCoversBudget(table, budget);
    && (forall i :: 0 <= i < |events| && events[i].Read? && events[i].read.Some? ==>
          Returned(Day(table, budget, events[..i]).rows, events[i].read.value, MaxCountedRows(table, budget)))
    && (forall i :: 0 <= i <= |events| ==>
          |Day(table, budget, events[..i]).gate| + |Day(table, budget, events[..i]).out| <= width)
  }

  /** The calls at the gate that will be let through. */
  function Passing(table: seq<Price>, budget: int, gate: seq<Call>): (tools: seq<Row>)
    requires table != []
    ensures |tools| <= |gate|
  {
    if gate == [] then []
    else
      var front, call := Passing(table, budget, gate[..|gate| - 1]), gate[|gate| - 1];
      if Gate(table, budget, call.read) then front + [call.tool] else front
  }

  lemma {:induction false} PassingWithout(table: seq<Price>, budget: int, gate: seq<Call>, i: nat)
    requires table != [] && i < |gate|
    ensures Used(table, Passing(table, budget, gate)) == Used(table, Passing(table, budget, Without(gate, i)))
              + if Gate(table, budget, gate[i].read) then EstimateFor(table, gate[i].tool) else 0
    decreases |gate|
  {
    hide EstimateFor, Used, Gate;
    var n, rest := |gate| - 1, Without(gate, i);
    UsedSnoc(table, Passing(table, budget, gate[..n]), gate[n].tool);
    if i == n {
      assert rest == gate[..n];
    } else {
      PassingWithout(table, budget, gate[..n], i);
      assert rest[..n - 1] == Without(gate[..n], i) && rest[n - 1] == gate[n];
      UsedSnoc(table, Passing(table, budget, rest[..n - 1]), gate[n].tool);
    }
  }

  lemma {:induction false} UsedAtMost(table: seq<Price>, rows: seq<Row>)
    requires Positive(table)
    ensures Used(table, rows) <= |rows| * Dearest(table)
    decreases |rows|
  {
    hide EstimateFor, Dearest;
    if rows != [] {
      var n := |rows| - 1;
      UsedAtMost(table, rows[..n]);
      EstimateInRange(table, rows[n]);
      OneMore(n, Dearest(table));
    }
  }

  lemma HonestFront(table: seq<Price>, budget: int, events: seq<Event>, width: nat)
    requires Positive(table) && budget >= 0 && Honest(table, budget, events, width) && events != []
    ensures Honest(table, budget, events[..|events| - 1], width)
  {
    hide Day, Returned;
    var front := events[..|events| - 1];
    forall i | 0 <= i <= |front| ensures front[..i] == events[..i] {}
  }

  /** What the account owes now and what the calls at the gate are sure to add. */
  function Stake(table: seq<Price>, budget: int, account: Account): int
    requires table != []
  {
    Used(table, account.rows) + Used(table, account.out) + Used(table, Passing(table, budget, account.gate))
  }

  /** Only a reading can raise the stake: deciding and ending move it from one place to the next. */
  lemma StakeStep(table: seq<Price>, budget: int, account: Account, event: Event)
    requires Positive(table) && (event.Read? ==> !Gate(table, budget, event.read))
    ensures Stake(table, budget, Next(table, budget, account, event)) <= Stake(table, budget, account)
  {
    hide EstimateFor, Used, Gate, Passing;
    match event
    case Read(tool, read) =>
      PassingSnoc(table, budget, account.gate, Call(tool, read));
    case Decide(i) =>
      if i < |account.gate| {
        PassingWithout(table, budget, account.gate, i);
        UsedSnoc(table, account.out, account.gate[i].tool);
      }
    case End(i, charged) =>
      if i < |account.out| {
        UsedWithout(table, account.out, i);
        UsedSnoc(table, account.rows, account.out[i]);
        EstimateInRange(table, account.out[i]);
      }
  }

  lemma PassingSnoc(table: seq<Price>, budget: int, gate: seq<Call>, call: Call)
    requires table != []
    ensures Passing(table, budget, gate + [call])
              == if Gate(table, budget, call.read) then Passing(table, budget, gate) + [call.tool] else Passing(table, budget, gate)
  {
    hide Gate;
    assert (gate + [call])[..|gate|] == gate;
  }

  /** A reading below the budget: everything else the account may owe is still at the gate or out. */
  lemma StakeAfterReading(table: seq<Price>, budget: int, account: Account, width: nat)
    requires Positive(table) && Admits(Used(table, account.rows), budget) && |account.gate| + |account.out| <= width
    ensures Stake(table, budget, account) < budget + width * Dearest(table)
  {
    hide Used, EstimateFor, Dearest;
    var passing := Passing(table, budget, account.gate);
    UsedAtMost(table, account.out);
    UsedAtMost(table, passing);
    EstimateInRange(table, None);
    Multiply(|passing| + |account.out|, width, Dearest(table));
    Distribute(|passing|, |account.out|, Dearest(table));
  }

  /**
   * The allowance bound. With at most `width` calls at the gate or out at once, everything an account
   * has not been charged for, everything it still has out and everything about to be let through stays
   * below the budget plus `width` dearest calls, however stale the readings that let calls through.
   */
  lemma {:induction false} UnchargedSpendBound(table: seq<Price>, budget: int, events: seq<Event>, width: nat)
    requires Positive(table) && budget > 0 && Honest(table, budget, events, width)
    ensures Stake(table, budget, Day(table, budget, events)) < budget + width * Dearest(table)
    decreases |events|
  {
    hide Used, MaxCountedRows, Returned, EstimateFor, Stake, Passing;
    CapCoversBudget(table, budget);
    if events == [] {
      NothingAtStake(table, budget);
      EstimateInRange(table, None);
      ProductNotNegative(width, Dearest(table));
    } else {
      var front, event := events[..|events| - 1], events[|events| - 1];
      var before := Day(table, budget, front);
      HonestFront(table, budget, events, width);
      UnchargedSpendBound(table, budget, front, width);
      assert events[..|events|] == events && events[..|events| - 1] == front;
      if event.Read? && Gate(table, budget, event.read) {
        TruncationIsLossless(table, budget, before.rows, event.read.value);
        StakeAfterReading(table, budget, Day(table, budget, events), width);
      } else {
        StakeStep(table, budget, before, event);
      }
    }
  }

  lemma NothingAtStake(table: seq<Price>, budget: int)
    requires table != []
    ensures Stake(table, budget, Account([], [], [])) == 0
  {
  }

  lemma Distribute(a: int, b: int, c: int)
    ensures (a + b) * c == a * c + b * c
  {
  }

  lemma UsedNothing(table: seq<Price>)
    requires table != []
    ensures Used(table, []) == 0
  {
  }

  lemma UsedSnoc(table: seq<Price>, rows: seq<Row>, row: Row)
    requires table != []
    ensures Used(table, rows + [row]) == Used(table, rows) + EstimateFor(table, row)
  {
    assert (rows + [row])[..|rows|] == rows;
  }

  lemma Multiply(a: nat, b: nat, c: int)
    requires a <= b && c >= 0
    ensures a * c <= b * c
  {
  }

  lemma ProductNotNegative(a: nat, c: int)
    requires c >= 0
    ensures a * c >= 0
  {
  }

  /** The gate admits a call exactly while what the account has released so far is below the budget. */
  lemma GateExactly(table: seq<Price>, budget: int, rows: seq<Row>, returned: seq<Row>)
    requires Positive(table) && budget >= 0 && Returned(rows, returned, MaxCountedRows(table, budget))
    ensures Gate(table, budget, Some(returned)) <==> Used(table, rows) < budget
    ensures !Gate(table, budget, None)
  {
    TruncationIsLossless(table, budget, rows, returned);
  }

  /** An account that has released nothing is let through on any tool, however expensive. */
  lemma FirstCallPasses(table: seq<Price>, budget: int, returned: seq<Row>)
    requires Positive(table) && budget > 0 && Returned([], returned, MaxCountedRows(table, budget))
    ensures Gate(table, budget, Some(returned))
  {
    TruncationIsLossless(table, budget, [], returned);
  }
}
