/**
 * What the dashboard calls spend: the balance-moving spend rows of the ledger, oldest first, added
 * up per UTC day for the chart and cumulatively for the sparkline.
 */
module Spend {
  import opened CreditLedger
  import CreditProtocol

  const DAY_MS: int := 24 * 60 * 60 * 1000

  datatype Time = Unparseable | At(ms: int)

  /** A ledger row as the dashboard reads it. */
  datatype Entry = Entry(kind: Kind, delta: int, createdAt: Time)

  datatype Event = Event(at: int, amount: int)

  datatype Point = Point(at: int, running: int)

  datatype Since = Always | From(ms: int)

  predicate MovesSpend(entry: Entry, since: Since) {
    && (entry.kind.SpendReserve? || entry.kind.SpendRelease?) && entry.delta != 0
    && entry.createdAt.At? && (since.From? ==> entry.createdAt.ms >= since.ms)
  }

  /** The events in ledger order, before they are sorted. */
  function Moves(entries: seq<Entry>, since: Since): seq<Event> {
    if entries == [] then []
    else
      var last := entries[|entries| - 1];
      Moves(entries[..|entries| - 1], since)
      + (if MovesSpend(last, since) then [Event(last.createdAt.ms, -last.delta)] else [])
  }

  /** Insert behind every event that is not later: a stable sort inserts in input order. */
  function Insert(sorted: seq<Event>, e: Event): seq<Event> {
    if sorted == [] || sorted[|sorted| - 1].at <= e.at then sorted + [e]
    else Insert(sorted[..|sorted| - 1], e) + [sorted[|sorted| - 1]]
  }

  function Sort(events: seq<Event>): seq<Event> {
    if events == [] then [] else Insert(Sort(events[..|events| - 1]), events[|events| - 1])
  }

  function SpendEvents(entries: seq<Entry>, since: Since): seq<Event> { Sort(Moves(entries, since)) }

  function Sum(events: seq<Event>): int {
    if events == [] then 0 else Sum(events[..|events| - 1]) + events[|events| - 1].amount
  }

  // --- Sorting ------------------------------------------------------------------------------

  ghost predicate Sorted(events: seq<Event>) {
    forall i, j :: 0 <= i < j < |events| ==> events[i].at <= events[j].at
  }

  lemma {:induction false} InsertKeeps(sorted: seq<Event>, e: Event)
    ensures multiset(Insert(sorted, e)) == multiset(sorted) + multiset{e}
    ensures Sum(Insert(sorted, e)) == Sum(sorted) + e.amount
    decreases |sorted|
  {
    if sorted == [] || sorted[|sorted| - 1].at <= e.at {
      assert (sorted + [e])[..|sorted|] == sorted;
    } else {
      var front, last := sorted[..|sorted| - 1], sorted[|sorted| - 1];
      InsertKeeps(front, e);
      assert sorted == front + [last];
      assert (Insert(front, e) + [last])[..|Insert(front, e)|] == Insert(front, e);
    }
  }

  ghost predicate NotLater(events: seq<Event>, bound: int) {
    forall i :: 0 <= i < |events| ==> events[i].at <= bound
  }

  lemma {:induction false} InsertNotLater(sorted: seq<Event>, e: Event, bound: int)
    requires NotLater(sorted, bound) && e.at <= bound
    ensures NotLater(Insert(sorted, e), bound)
    decreases |sorted|
  {
    if sorted != [] && sorted[|sorted| - 1].at > e.at {
      InsertNotLater(sorted[..|sorted| - 1], e, bound);
    }
  }

  lemma {:induction false} InsertSorts(sorted: seq<Event>, e: Event)
    requires Sorted(sorted)
    ensures Sorted(Insert(sorted, e))
    decreases |sorted|
  {
    if sorted != [] && sorted[|sorted| - 1].at > e.at {
      var front, last := sorted[..|sorted| - 1], sorted[|sorted| - 1];
      InsertSorts(front, e);
      InsertNotLater(front, e, last.at);
    }
  }

  /** Sorting orders the events by time and neither adds nor loses one. */
  lemma {:induction false} SortSorts(events: seq<Event>)
    ensures Sorted(Sort(events)) && multiset(Sort(events)) == multiset(events) && Sum(Sort(events)) == Sum(events)
    decreases |events|
  {
    if events != [] {
      var front, last := events[..|events| - 1], events[|events| - 1];
      assert events == front + [last];
      SortSorts(front);
      InsertSorts(Sort(front), last);
      InsertKeeps(Sort(front), last);
    }
  }

  /** The events of one moment, in order. */
  function Of(events: seq<Event>, at: int): seq<Event> {
    if events == [] then []
    else
      var last := events[|events| - 1];
      Of(events[..|events| - 1], at) + (if last.at == at then [last] else [])
  }

  lemma OfOneMore(events: seq<Event>, e: Event, at: int)
    ensures Of(events + [e], at) == Of(events, at) + (if e.at == at then [e] else [])
  {
    assert (events + [e])[..|events|] == events;
  }

  lemma {:induction false} InsertIsLast(sorted: seq<Event>, e: Event, at: int)
    ensures Of(Insert(sorted, e), at) == Of(sorted, at) + (if e.at == at then [e] else [])
    decreases |sorted|
  {
    if sorted == [] || sorted[|sorted| - 1].at <= e.at {
      OfOneMore(sorted, e, at);
    } else {
      var front, last := sorted[..|sorted| - 1], sorted[|sorted| - 1];
      InsertIsLast(front, e, at);
      OfOneMore(Insert(front, e), last, at);
    }
  }

  /** Events of one moment keep the ledger's order. */
  lemma {:induction false} SortIsStable(events: seq<Event>, at: int)
    ensures Of(Sort(events), at) == Of(events, at)
    decreases |events|
  {
    if events != [] {
      var front, last := events[..|events| - 1], events[|events| - 1];
      SortIsStable(front, at);
      InsertIsLast(Sort(front), last, at);
    }
  }

  // --- The sparkline --------------------------------------------------------------------------

  method CumulativeSpend(events: seq<Event>) returns (points: seq<Point>)
    ensures |points| == |events|
    ensures forall i :: 0 <= i < |events| ==> points[i] == Point(events[i].at, Sum(events[..i + 1]))
  {
    var running := 0;
    points := [];
    for i := 0 to |events|
      invariant |points| == i && running == Sum(events[..i])
      invariant forall k :: 0 <= k < i ==> points[k] == Point(events[k].at, Sum(events[..k + 1]))
    {
      assert events[..i + 1][..i] == events[..i];
      running := running + events[i].amount;
      points := points + [Point(events[i].at, running)];
    }
  }

  /** One user's ledger rows as the dashboard fetches them. */
  function EntriesOf(rows: Ledger, user: User): seq<Entry> {
    if rows == [] then []
    else
      var last := rows[|rows| - 1];
      EntriesOf(rows[..|rows| - 1], user)
      + (if last.user == user then [Entry(last.kind, last.delta, At(last.at))] else [])
  }

  lemma MovesOneMore(entries: seq<Entry>, entry: Entry, since: Since)
    ensures Sum(Moves(entries + [entry], since))
         == Sum(Moves(entries, since)) + (if MovesSpend(entry, since) then -entry.delta else 0)
  {
    var moves := Moves(entries, since);
    assert (entries + [entry])[..|entries|] == entries;
    if MovesSpend(entry, since) {
      assert (moves + [Event(entry.createdAt.ms, -entry.delta)])[..|moves|] == moves;
    } else {
      assert moves + [] == moves;
    }
  }

  /** One row moves the spend events by exactly what it takes from the balance unreceived. */
  lemma RowMirrors(rows: Ledger, user: User)
    requires rows != [] && (rows[|rows| - 1].kind.SpendCommit? ==> rows[|rows| - 1].delta == 0)
    ensures var front := rows[..|rows| - 1];
            Sum(Moves(EntriesOf(rows, user), Always)) - Sum(Moves(EntriesOf(front, user), Always))
            == (Received(rows, user) - Balance(rows, user)) - (Received(front, user) - Balance(front, user))
  {
    var front, last := rows[..|rows| - 1], rows[|rows| - 1];
    hide Moves, Sum;
    MovesOneMore(EntriesOf(front, user), Entry(last.kind, last.delta, At(last.at)), Always);
    assert EntriesOf(front, user) + [] == EntriesOf(front, user);
  }

  lemma {:induction false} MovesMirrorBalance(rows: Ledger, user: User)
    requires forall j :: 0 <= j < |rows| && rows[j].kind.SpendCommit? ==> rows[j].delta == 0
    ensures Sum(Moves(EntriesOf(rows, user), Always)) == Received(rows, user) - Balance(rows, user)
  {
    if rows != [] {
      RowMirrors(rows, user);
      MovesMirrorBalance(rows[..|rows| - 1], user);
    }
  }

  /**
   * Spend mirrors the ledger. On every sound ledger, the last point of the sparkline is the sum of
   * the reserves still open and the reserves committed, which is what was received and is no
   * longer in the balance.
   */
  lemma SpendMirrorsLedger(rows: Ledger, user: User)
    requires Sound(rows)
    ensures var total := Sum(SpendEvents(EntriesOf(rows, user), Always));
            total == Standing(rows, user, |rows|) && total == Received(rows, user) - Balance(rows, user)
  {
    forall j | 0 <= j < |rows| && rows[j].kind.SpendCommit? ensures rows[j].delta == 0 { assert RowSound(rows, j); }
    MovesMirrorBalance(rows, user);
    SortSorts(Moves(EntriesOf(rows, user), Always));
    BalanceIsReceivedLessStanding(rows, user);
  }

  /** So it does at every moment of every run of the settlement protocol. */
  lemma SpendMirrorsEveryRun(sys: CreditProtocol.System, labels: seq<CreditProtocol.Label>, user: User)
    requires CreditProtocol.Inv(sys)
    ensures var rows := CreditProtocol.Replay(sys, labels).rows;
            var total := Sum(SpendEvents(EntriesOf(rows, user), Always));
            total == Standing(rows, user, |rows|) && total == Received(rows, user) - Balance(rows, user)
  {
    CreditProtocol.ReplayInv(sys, labels);
    SpendMirrorsLedger(CreditProtocol.Replay(sys, labels).rows, user);
  }

  // --- The chart --------------------------------------------------------------------------------

  /** Midnight UTC of the day `at` falls in. */
  function UtcDayStart(at: int): int { at - at % DAY_MS }

  function TrailingUtcDays(count: nat, now: int): (days: seq<int>)
    ensures |days| == count
    ensures forall i :: 0 <= i < count ==> days[i] == UtcDayStart(now) - (count - 1 - i) * DAY_MS
  {
    seq(count, i requires 0 <= i < count => UtcDayStart(now) - (count - 1 - i) * DAY_MS)
  }

  /** The net spend of one day. */
  function DayTotal(events: seq<Event>, day: int): int {
    if events == [] then 0
    else DayTotal(events[..|events| - 1], day)
         + (if UtcDayStart(events[|events| - 1].at) == day then events[|events| - 1].amount else 0)
  }

  method SpendByDay(events: seq<Event>, days: seq<int>) returns (bars: seq<int>)
    ensures |bars| == |days| && forall i :: 0 <= i < |days| ==> bars[i] == DayTotal(events, days[i])
  {
    var totals := map day | day in days :: 0;
    for k := 0 to |events|
      invariant totals.Keys == set day | day in days
      invariant forall day :: day in totals ==> totals[day] == DayTotal(events[..k], day)
    {
      assert events[..k + 1][..k] == events[..k];
      var day := UtcDayStart(events[k].at);
      if day in totals {
        totals := totals[day := totals[day] + events[k].amount];
      }
    }
    assert events[..|events|] == events;
    bars := seq(|days|, i requires 0 <= i < |days| => if days[i] in totals then totals[days[i]] else 0);
  }

  function BarSum(events: seq<Event>, days: seq<int>): int {
    if days == [] then 0 else BarSum(events, days[..|days| - 1]) + DayTotal(events, days[|days| - 1])
  }

  /** The events that fall into the given span of time. */
  function Within(events: seq<Event>, from: int, until: int): int {
    if events == [] then 0
    else Within(events[..|events| - 1], from, until)
         + (if from <= events[|events| - 1].at < until then events[|events| - 1].amount else 0)
  }

  /** A day is a span of DAY_MS milliseconds from its start, before or after 1970. */
  lemma DayIsSpan(at: int, day: int)
    requires day % DAY_MS == 0
    ensures UtcDayStart(at) == day <==> day <= at < day + DAY_MS
  {
    DayMultiple(at, day);
  }

  lemma DayMultiple(at: int, day: int)
    requires day % DAY_MS == 0
    ensures day <= at < day + DAY_MS ==> at % DAY_MS == at - day
  {
    if day <= at < day + DAY_MS {
      var k := day / DAY_MS;
      assert at == k * DAY_MS + (at - day);
    }
  }

  lemma {:induction false} DayTotalIsWithin(events: seq<Event>, day: int)
    requires day % DAY_MS == 0
    ensures DayTotal(events, day) == Within(events, day, day + DAY_MS)
  {
    if events != [] {
      DayTotalIsWithin(events[..|events| - 1], day);
      DayIsSpan(events[|events| - 1].at, day);
    }
  }

  lemma {:induction false} WithinSplits(events: seq<Event>, from: int, mid: int, until: int)
    requires from <= mid <= until
    ensures Within(events, from, until) == Within(events, from, mid) + Within(events, mid, until)
  {
    if events != [] { WithinSplits(events[..|events| - 1], from, mid, until); }
  }

  lemma {:induction false} NothingWithin(events: seq<Event>, from: int)
    ensures Within(events, from, from) == 0
  {
    if events != [] { NothingWithin(events[..|events| - 1], from); }
  }

  lemma {:induction false} ConsecutiveBars(events: seq<Event>, days: seq<int>, first: int)
    requires first % DAY_MS == 0 && forall i :: 0 <= i < |days| ==> days[i] == first + i * DAY_MS
    ensures BarSum(events, days) == Within(events, first, first + |days| * DAY_MS)
    decreases |days|
  {
    if days == [] {
      NothingWithin(events, first);
    } else {
      var n := |days| - 1;
      ConsecutiveBars(events, days[..n], first);
      assert days[n] == first + n * DAY_MS;
      assert days[n] % DAY_MS == 0 by { MultipleOfDay(first, n); }
      DayTotalIsWithin(events, days[n]);
      WithinSplits(events, first, days[n], days[n] + DAY_MS);
    }
  }

  lemma MultipleOfDay(first: int, n: int)
    requires first % DAY_MS == 0
    ensures (first + n * DAY_MS) % DAY_MS == 0
  {
    var k := first / DAY_MS;
    assert first + n * DAY_MS == (k + n) * DAY_MS;
  }

  /**
   * The bars of the trailing days add up to exactly the events that fall into those days, each
   * counted once: from midnight of the first day until the end of today.
   */
  lemma BarsAddUp(events: seq<Event>, count: nat, now: int)
    ensures var today := UtcDayStart(now);
            BarSum(events, TrailingUtcDays(count, now)) == Within(events, today - (count - 1) * DAY_MS, today + DAY_MS)
  {
    var today := UtcDayStart(now);
    var first := today - (count - 1) * DAY_MS;
    assert today % DAY_MS == 0;
    MultipleOfDay(today, 1 - count);
    assert first == today + (1 - count) * DAY_MS;
    var days := TrailingUtcDays(count, now);
    forall i | 0 <= i < count ensures days[i] == first + i * DAY_MS {
    }
    ConsecutiveBars(events, days, first);
  }

  // --- The same, read off the ledger's rows -------------------------------------------------------

  /** Debits less refunds among the rows created in a span of time, and not before `since`. */
  function NetOf(entries: seq<Entry>, since: Since, from: int, until: int): int {
    if entries == [] then 0
    else
      var Entry(kind, delta, createdAt) := entries[|entries| - 1];
      NetOf(entries[..|entries| - 1], since, from, until)
      + (if (kind == SpendReserve || kind == SpendRelease) && createdAt.At? && from <= createdAt.ms < until
            && (since == Always || createdAt.ms >= since.ms) then -delta else 0)
  }

  lemma WithinOneMore(events: seq<Event>, e: Event, from: int, until: int)
    ensures Within(events + [e], from, until) == Within(events, from, until) + (if from <= e.at < until then e.amount else 0)
  {
    assert (events + [e])[..|events|] == events;
  }

  lemma {:induction false} InsertWithin(sorted: seq<Event>, e: Event, from: int, until: int)
    ensures Within(Insert(sorted, e), from, until) == Within(sorted, from, until) + (if from <= e.at < until then e.amount else 0)
    decreases |sorted|
  {
    if sorted == [] || sorted[|sorted| - 1].at <= e.at {
      WithinOneMore(sorted, e, from, until);
    } else {
      var front, last := sorted[..|sorted| - 1], sorted[|sorted| - 1];
      InsertWithin(front, e, from, until);
      WithinOneMore(Insert(front, e), last, from, until);
    }
  }

  lemma {:induction false} SortWithin(events: seq<Event>, from: int, until: int)
    ensures Within(Sort(events), from, until) == Within(events, from, until)
    decreases |events|
  {
    if events != [] {
      SortWithin(events[..|events| - 1], from, until);
      InsertWithin(Sort(events[..|events| - 1]), events[|events| - 1], from, until);
    }
  }

  lemma {:induction false} MovesWithin(entries: seq<Entry>, since: Since, from: int, until: int)
    ensures Within(Moves(entries, since), from, until) == NetOf(entries, since, from, until)
    decreases |entries|
  {
    if entries != [] {
      var front, last := entries[..|entries| - 1], entries[|entries| - 1];
      MovesWithin(front, since, from, until);
      assert entries == front + [last];
      MoveWithin(front, last, since, from, until);
    }
  }

  lemma MoveWithin(entries: seq<Entry>, entry: Entry, since: Since, from: int, until: int)
    ensures Within(Moves(entries + [entry], since), from, until) - Within(Moves(entries, since), from, until)
         == NetOf(entries + [entry], since, from, until) - NetOf(entries, since, from, until)
  {
    assert (entries + [entry])[..|entries|] == entries;
    var moves := Moves(entries, since);
    hide Within, Moves, NetOf;
    MovesGrow(entries, entry, since);
    NetGrows(entries, entry, since, from, until);
    if MovesSpend(entry, since) {
      WithinOneMore(moves, Event(entry.createdAt.ms, -entry.delta), from, until);
    }
  }

  lemma MovesGrow(entries: seq<Entry>, entry: Entry, since: Since)
    ensures Moves(entries + [entry], since)
         == if MovesSpend(entry, since) then Moves(entries, since) + [Event(entry.createdAt.ms, -entry.delta)] else Moves(entries, since)
  {
    assert (entries + [entry])[..|entries|] == entries;
    assert Moves(entries, since) + [] == Moves(entries, since);
  }

  lemma NetGrows(entries: seq<Entry>, entry: Entry, since: Since, from: int, until: int)
    ensures NetOf(entries + [entry], since, from, until)
         == NetOf(entries, since, from, until)
            + (if MovesSpend(entry, since) && from <= entry.createdAt.ms < until then -entry.delta else 0)
  {
    assert (entries + [entry])[..|entries|] == entries;
  }

  /**
   * The bar of a day is what the rows created on that day debited less what they refunded: a refund
   * counts on the day it is made, not on the day of its reserve.
   */
  lemma BarIsTheDaysRows(entries: seq<Entry>, since: Since, day: int)
    requires day % DAY_MS == 0
    ensures DayTotal(SpendEvents(entries, since), day) == NetOf(entries, since, day, day + DAY_MS)
  {
    DayTotalIsWithin(SpendEvents(entries, since), day);
    SortWithin(Moves(entries, since), day, day + DAY_MS);
    MovesWithin(entries, since, day, day + DAY_MS);
  }

  lemma RowMoves(rows: Ledger, user: User, since: Since)
    requires rows != []
    ensures var last := rows[|rows| - 1];
            Sum(Moves(EntriesOf(rows, user), since)) == Sum(Moves(EntriesOf(rows[..|rows| - 1], user), since))
            + (if last.user == user && MovesSpend(Entry(last.kind, last.delta, At(last.at)), since) then -last.delta else 0)
  {
    var entries, last := EntriesOf(rows[..|rows| - 1], user), rows[|rows| - 1];
    assert entries + [] == entries;
    hide Moves, Sum;
    MovesOneMore(entries, Entry(last.kind, last.delta, At(last.at)), since);
  }

  lemma {:induction false} MovesSince(rows: Ledger, user: User, n: nat, ms: int)
    requires n <= |rows| && forall i :: 0 <= i < |rows| ==> (rows[i].at < ms <==> i < n)
    ensures Sum(Moves(EntriesOf(rows, user), From(ms)))
         == Sum(Moves(EntriesOf(rows, user), Always)) - Sum(Moves(EntriesOf(rows[..n], user), Always))
    decreases |rows|
  {
    if rows != [] {
      var front, last := rows[..|rows| - 1], rows[|rows| - 1];
      var m := if n == |rows| then n - 1 else n;
      hide Moves, Sum, EntriesOf;
      MovesSince(front, user, m, ms);
      assert front[..m] == rows[..m] && (n == |rows| ==> rows[..n] == rows && front[..m] == front);
      RowMoves(rows, user, From(ms));
      RowMoves(rows, user, Always);
    }
  }

  /** Spend since a moment is what the balance lost unreceived after the rows written before it. */
  lemma SpendSinceMirrors(rows: Ledger, user: User, n: nat, ms: int)
    requires Sound(rows) && n <= |rows| && forall i :: 0 <= i < |rows| ==> (rows[i].at < ms <==> i < n)
    ensures Sum(SpendEvents(EntriesOf(rows, user), From(ms)))
         == (Received(rows, user) - Balance(rows, user)) - (Received(rows[..n], user) - Balance(rows[..n], user))
  {
    forall j | 0 <= j < |rows| && rows[j].kind.SpendCommit? ensures rows[j].delta == 0 { assert RowSound(rows, j); }
    MovesMirrorBalance(rows, user);
    MovesMirrorBalance(rows[..n], user);
    MovesSince(rows, user, n, ms);
    SortSorts(Moves(EntriesOf(rows, user), From(ms)));
  }
}
