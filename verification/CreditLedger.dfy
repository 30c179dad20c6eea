/**
 * The append-only credit ledger and the three functions that write its spend rows. Each runs under
 * a per-user lock in the database, so each is one atomic step here.
 */
module CreditLedger {
  type User = nat

  datatype Kind = Grant | Purchase | Adjust | SpendReserve | SpendCommit | SpendRelease

  /** `reserveId` links a settling row to its reserve; a reserve's id is its own position. */
  datatype Row = Row(user: User, delta: int, kind: Kind, reserveId: nat, at: int)

  type Ledger = seq<Row>

  datatype Error = InvalidAmount | InsufficientBalance | UnknownReserve | AlreadySettled

  datatype Answer = Ok(rows: Ledger) | Err(error: Error)

  function Balance(rows: Ledger, user: User): int {
    if rows == [] then 0
    else Balance(rows[..|rows| - 1], user) + (if rows[|rows| - 1].user == user then rows[|rows| - 1].delta else 0)
  }

  predicate Settles(row: Row, id: nat) {
    (row.kind.SpendCommit? || row.kind.SpendRelease?) && row.reserveId == id
  }

  predicate IsReserve(rows: Ledger, id: nat) {
    id < |rows| && rows[id].kind.SpendReserve?
  }

  predicate HasRow(rows: Ledger, kind: Kind, id: nat) {
    exists j :: 0 <= j < |rows| && rows[j].kind == kind && rows[j].reserveId == id
  }

  predicate Settled(rows: Ledger, id: nat) {
    HasRow(rows, SpendCommit, id) || HasRow(rows, SpendRelease, id)
  }

  /** Debit `amount` now, if the balance covers it. The new reserve's id is its row's position. */
  function Reserve(rows: Ledger, user: User, amount: int, at: int): Answer {
    if amount <= 0 then Err(InvalidAmount)
    else if Balance(rows, user) < amount then Err(InsufficientBalance)
    else Ok(rows + [Row(user, -amount, SpendReserve, |rows|, at)])
  }

  /** Settle an open reserve with a zero-delta row: the debit stands. */
  function Commit(rows: Ledger, id: nat, at: int): Answer {
    if !IsReserve(rows, id) then Err(UnknownReserve)
    else if Settled(rows, id) then Err(AlreadySettled)
    else Ok(rows + [Row(rows[id].user, 0, SpendCommit, id, at)])
  }

  /** Settle an open reserve by giving its own amount back. */
  function Release(rows: Ledger, id: nat, at: int): Answer {
    if !IsReserve(rows, id) then Err(UnknownReserve)
    else if Settled(rows, id) then Err(AlreadySettled)
    else Ok(rows + [Row(rows[id].user, -rows[id].delta, SpendRelease, id, at)])
  }

  function Credit(rows: Ledger, user: User, amount: nat, at: int): Ledger {
    rows + [Row(user, amount, Grant, 0, at)]
  }

  // --- What every ledger written this way satisfies ---------------------------------------

  ghost predicate RowSound(rows: Ledger, j: nat)
    requires j < |rows|
  {
    match rows[j].kind
    case SpendReserve => rows[j].delta < 0 && rows[j].reserveId == j
    case SpendCommit => rows[j].reserveId < j && rows[rows[j].reserveId].kind.SpendReserve?
                        && rows[j].user == rows[rows[j].reserveId].user && rows[j].delta == 0
    case SpendRelease => rows[j].reserveId < j && rows[rows[j].reserveId].kind.SpendReserve?
                        && rows[j].user == rows[rows[j].reserveId].user && rows[j].delta == -rows[rows[j].reserveId].delta
    case _ => true
  }

  /** Rows are well shaped and every reserve has at most one settling row. */
  ghost predicate Sound(rows: Ledger) {
    && (forall j :: 0 <= j < |rows| ==> RowSound(rows, j))
    && (forall i, j, id :: 0 <= i < j < |rows| && Settles(rows[i], id) ==> !Settles(rows[j], id))
  }

  lemma SettledMeans(rows: Ledger, id: nat)
    ensures Settled(rows, id) <==> exists i :: 0 <= i < |rows| && Settles(rows[i], id)
  {
    if i :| 0 <= i < |rows| && Settles(rows[i], id) {
      assert HasRow(rows, rows[i].kind, id);
    }
  }

  lemma SoundAppend(rows: Ledger, row: Row)
    requires Sound(rows) && RowSound(rows + [row], |rows|)
    requires (row.kind.SpendCommit? || row.kind.SpendRelease?) ==> !Settled(rows, row.reserveId)
    ensures Sound(rows + [row])
  {
    var rows' := rows + [row];
    forall j | 0 <= j < |rows'| ensures RowSound(rows', j) {
      if j < |rows| { assert RowSound(rows, j); }
    }
    SettledMeans(rows, row.reserveId);
    assert forall i :: 0 <= i < |rows| ==> rows'[i] == rows[i];
  }

  lemma ReserveSound(rows: Ledger, user: User, amount: int, at: int)
    requires Sound(rows) && Reserve(rows, user, amount, at).Ok?
    ensures Sound(Reserve(rows, user, amount, at).rows)
  {
    SoundAppend(rows, Row(user, -amount, SpendReserve, |rows|, at));
  }

  lemma CommitSound(rows: Ledger, id: nat, at: int)
    requires Sound(rows) && Commit(rows, id, at).Ok?
    ensures Sound(Commit(rows, id, at).rows)
  {
    SoundAppend(rows, Row(rows[id].user, 0, SpendCommit, id, at));
  }

  lemma ReleaseSound(rows: Ledger, id: nat, at: int)
    requires Sound(rows) && Release(rows, id, at).Ok?
    ensures Sound(Release(rows, id, at).rows)
  {
    SoundAppend(rows, Row(rows[id].user, -rows[id].delta, SpendRelease, id, at));
  }

  lemma CreditSound(rows: Ledger, user: User, amount: nat, at: int)
    requires Sound(rows)
    ensures Sound(Credit(rows, user, amount, at))
  {
    SoundAppend(rows, Row(user, amount, Grant, 0, at));
  }

  /** Rows stay, so what a prefix shows of a reserve the whole shows too. */
  lemma HasRowGrows(rows: Ledger, rows': Ledger)
    requires rows <= rows'
    ensures forall kind, id :: HasRow(rows, kind, id) ==> HasRow(rows', kind, id)
  {
    forall kind, id | HasRow(rows, kind, id) ensures HasRow(rows', kind, id) {
      var j :| 0 <= j < |rows| && rows[j].kind == kind && rows[j].reserveId == id;
      assert rows'[j] == rows[j];
    }
  }

  lemma HasRowAppend(rows: Ledger, row: Row)
    ensures forall kind, id :: HasRow(rows + [row], kind, id) <==>
                               HasRow(rows, kind, id) || (row.kind == kind && row.reserveId == id)
  {
    HasRowGrows(rows, rows + [row]);
    forall kind, id | row.kind == kind && row.reserveId == id ensures HasRow(rows + [row], kind, id) {
      assert (rows + [row])[|rows|] == row;
    }
    forall kind, id | HasRow(rows + [row], kind, id) && !(row.kind == kind && row.reserveId == id)
      ensures HasRow(rows, kind, id)
    {
      var j :| 0 <= j < |rows + [row]| && (rows + [row])[j].kind == kind && (rows + [row])[j].reserveId == id;
      assert rows[j] == (rows + [row])[j];
    }
  }

  lemma NotBoth(rows: Ledger, id: nat)
    requires Sound(rows) && HasRow(rows, SpendCommit, id)
    ensures !HasRow(rows, SpendRelease, id)
  {
    var i :| 0 <= i < |rows| && rows[i].kind == SpendCommit && rows[i].reserveId == id;
    forall j | 0 <= j < |rows| ensures !(rows[j].kind == SpendRelease && rows[j].reserveId == id) {
      if j < i { assert Settles(rows[j], id) ==> !Settles(rows[i], id); }
      if i < j { assert Settles(rows[i], id); }
    }
  }

  // --- The balance -------------------------------------------------------------------------

  /** Deltas that are not spend: grants, purchases and adjustments. */
  function Received(rows: Ledger, user: User): int {
    if rows == [] then 0
    else
      var last := rows[|rows| - 1];
      Received(rows[..|rows| - 1], user)
      + (if last.user == user && (last.kind.Grant? || last.kind.Purchase? || last.kind.Adjust?) then last.delta else 0)
  }

  /** The amounts of the first `n` rows' reserves of `user` that `rows` does not show released. */
  function Standing(rows: Ledger, user: User, n: nat): int
    requires n <= |rows|
  {
    if n == 0 then 0
    else Standing(rows, user, n - 1)
         + (if rows[n - 1].user == user && rows[n - 1].kind.SpendReserve? && !HasRow(rows, SpendRelease, n - 1)
            then -rows[n - 1].delta else 0)
  }

  /** Appending a row changes what stands only at the reserve it releases. */
  lemma {:induction false} StandingAppend(rows: Ledger, row: Row, user: User, n: nat)
    requires n <= |rows|
    requires row.kind.SpendRelease? ==> row.reserveId < |rows| && rows[row.reserveId].kind.SpendReserve?
                                        && !HasRow(rows, SpendRelease, row.reserveId)
    ensures Standing(rows + [row], user, n) == Standing(rows, user, n)
            + (if row.kind.SpendRelease? && row.reserveId < n && rows[row.reserveId].user == user
               then rows[row.reserveId].delta else 0)
    decreases n
  {
    if n > 0 {
      StandingAppend(rows, row, user, n - 1);
      HasRowAppend(rows, row);
    }
  }

  /**
   * The ledger's one invariant in money: a balance is what was received less the amounts of the
   * reserves still open and of the reserves committed. A released reserve nets to nothing.
   */
  lemma {:induction false} BalanceIsReceivedLessStanding(rows: Ledger, user: User)
    requires Sound(rows)
    ensures Balance(rows, user) == Received(rows, user) - Standing(rows, user, |rows|)
  {
    if rows != [] {
      var front, last := rows[..|rows| - 1], rows[|rows| - 1];
      SoundPrefix(rows);
      BalanceIsReceivedLessStanding(front, user);
      assert rows == front + [last];
      assert RowSound(rows, |rows| - 1);
      if last.kind.SpendRelease? {
        LastSettlesFirst(rows);
      }
      StandingAppend(front, last, user, |front|);
      if last.kind.SpendReserve? {
        NoEarlySettlement(rows, |rows| - 1);
      }
    }
  }

  lemma SoundPrefix(rows: Ledger)
    requires Sound(rows) && rows != []
    ensures Sound(rows[..|rows| - 1])
  {
    var front := rows[..|rows| - 1];
    forall j | 0 <= j < |front| ensures RowSound(front, j) { assert RowSound(rows, j); }
  }

  lemma LastSettlesFirst(rows: Ledger)
    requires Sound(rows) && rows != [] && rows[|rows| - 1].kind.SpendRelease?
    ensures !HasRow(rows[..|rows| - 1], SpendRelease, rows[|rows| - 1].reserveId)
  {
    var front, last := rows[..|rows| - 1], rows[|rows| - 1];
    if j :| 0 <= j < |front| && front[j].kind == SpendRelease && front[j].reserveId == last.reserveId {
      assert Settles(rows[j], last.reserveId) && Settles(rows[|rows| - 1], last.reserveId);
    }
  }

  /** A settling row always comes after its reserve. */
  lemma NoEarlySettlement(rows: Ledger, id: nat)
    requires Sound(rows) && id == |rows| - 1 && rows[id].kind.SpendReserve?
    ensures !HasRow(rows, SpendRelease, id)
  {
    forall j | 0 <= j < |rows| ensures !(rows[j].kind == SpendRelease && rows[j].reserveId == id) {
      assert RowSound(rows, j);
    }
  }

  /** The database's cover check never lets a reserve take a balance below zero. */
  lemma ReserveCovered(rows: Ledger, user: User, amount: int, at: int)
    requires forall u :: Balance(rows, u) >= 0
    requires Reserve(rows, user, amount, at).Ok?
    ensures forall u :: Balance(Reserve(rows, user, amount, at).rows, u) >= 0
  {
    var rows' := Reserve(rows, user, amount, at).rows;
    assert rows'[..|rows'| - 1] == rows;
    forall u ensures Balance(rows', u) >= 0 { assert Balance(rows, u) >= 0; }
  }

  /**
   * A reserve is granted exactly when what the user received covers it besides the reserves standing,
   * and it then stands itself, to the user's charge alone.
   */
  lemma GrantedExactly(rows: Ledger, user: User, amount: int, at: int)
    requires Sound(rows)
    ensures var answer := Reserve(rows, user, amount, at);
            && (answer.Ok? <==> 0 < amount <= Received(rows, user) - Standing(rows, user, |rows|))
            && (answer.Ok? ==>
                  && IsReserve(answer.rows, |rows|) && !Settled(answer.rows, |rows|)
                  && forall u :: Balance(answer.rows, u) == Balance(rows, u) - (if u == user then amount else 0))
  {
    BalanceIsReceivedLessStanding(rows, user);
    var answer := Reserve(rows, user, amount, at);
    if answer.Ok? {
      assert answer.rows[..|rows|] == rows;
      ReserveSound(rows, user, amount, at);
      SettledMeans(answer.rows, |rows|);
      forall j | 0 <= j < |answer.rows| ensures !Settles(answer.rows[j], |rows|) { assert RowSound(answer.rows, j); }
    }
  }

  /**
   * An open reserve can be settled either way, and only once. Committing moves no balance, and releasing
   * gives the reserved amount back to the user who reserved it.
   */
  lemma SettledExactly(rows: Ledger, id: nat, at: int)
    requires Sound(rows)
    ensures var commit, release := Commit(rows, id, at), Release(rows, id, at);
            && (commit.Ok? <==> IsReserve(rows, id) && forall j :: 0 <= j < |rows| ==> !Settles(rows[j], id))
            && (release.Ok? <==> commit.Ok?)
            && (commit.Ok? ==> forall u :: Balance(commit.rows, u) == Balance(rows, u))
            && (release.Ok? ==> forall u :: Balance(release.rows, u) == Balance(rows, u) + (if u == rows[id].user then -rows[id].delta else 0))
  {
    var commit, release := Commit(rows, id, at), Release(rows, id, at);
    if commit.Ok? { assert commit.rows[..|rows|] == rows; }
    if release.Ok? { assert release.rows[..|rows|] == rows; }
    SettledMeans(rows, id);
  }
}
