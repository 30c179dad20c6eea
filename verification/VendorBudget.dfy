/**
 * Any number of vendor operations against one day's budget, interleaved call by call. An operation
 * makes one reservation, a planned series of requests, and one settlement; requests may fail,
 * may be billed although they failed, and may come back without a price; any ledger call may be
 * lost on the way there or on the way back.
 */
module VendorBudget {
  import opened Network
  import opened Options
  import opened SpendLedger

  /** Where an operation stands. `amount` is what its reservation is, or was, to be settled at. */
  datatype Phase =
    | Start
    | Requesting(id: nat)
    | Settling(id: nat, amount: real, ok: bool)
    | Finished(id: nat, amount: real, ok: bool)
    | Refused

  /**
   * `plan` holds the estimate of each request; requests from `required` on may turn out unneeded.
   * `asked` records the requests sent and `settleCalls` counts the calls to settle.
   */
  datatype Operation = Operation(plan: seq<real>, required: nat, phase: Phase, asked: seq<Request>, settleCalls: nat)

  /** `billed[id]` is what the vendor really charged under reservation `id`. */
  datatype System = System(rows: seq<Booking>, billed: seq<real>, ops: seq<Operation>, cap: real)

  /** The vendor's answer to one request: what it really cost, and whether it says so and succeeds. */
  datatype Request = Request(cost: real, reported: bool, ok: bool)

  datatype Act =
    | Reserve(op: nat, fate: Fate)
    | Ask(op: nat, request: Request)
    | Conclude(op: nat)
    | SettleUp(op: nat, fate: Fate)
    | Enter(plan: seq<real>, required: nat)

  function Sum(xs: seq<real>): real {
    if xs == [] then 0.0 else Sum(xs[..|xs| - 1]) + xs[|xs| - 1]
  }

  function Estimate(op: Operation): real { Sum(op.plan) }

  /** What the vendor charges for a series of requests. */
  function Cost(asked: seq<Request>): real {
    if asked == [] then 0.0 else Cost(asked[..|asked| - 1]) + asked[|asked| - 1].cost
  }

  /** What answered requests are settled at: the price each one states, or else its own estimate. */
  function Tally(plan: seq<real>, asked: seq<Request>): real
    requires |asked| <= |plan|
  {
    if asked == [] then 0.0
    else Tally(plan, asked[..|asked| - 1]) + Price(plan[|asked| - 1], asked[|asked| - 1])
  }

  function Price(estimate: real, request: Request): real { if request.reported then request.cost else estimate }

  /** A reply lost on its way back still booked; only a delivered booking lets requests go out. */
  function AfterReserve(rows: seq<Booking>, answer: Answer, fate: Fate): Phase {
    if answer.Ok? && fate == Delivered then Requesting(|rows|) else Refused
  }

  /** One more request is out; one that fails ends the operation at its whole estimate. */
  function AfterAsk(op: Operation, request: Request): Operation
    requires op.phase.Requesting?
  {
    op.(asked := op.asked + [request],
        phase := if request.ok then op.phase else Settling(op.phase.id, Estimate(op), false))
  }

  function SetOp(sys: System, o: nat, phase: Phase): System
    requires o < |sys.ops|
  {
    sys.(ops := sys.ops[o := sys.ops[o].(phase := phase)])
  }

  function Step(sys: System, act: Act): System {
    match act
    case Reserve(o, fate) =>
      if o >= |sys.ops| || !sys.ops[o].phase.Start? then sys
      else
        var answer := Book(sys.rows, Estimate(sys.ops[o]), sys.cap);
        var sys' := SetOp(sys, o, AfterReserve(sys.rows, answer, fate));
        if answer.Ok? && fate != NeverApplied then sys'.(rows := answer.rows, billed := sys.billed + [0.0]) else sys'
    case Ask(o, request) =>
      if o >= |sys.ops| || !sys.ops[o].phase.Requesting? || |sys.ops[o].asked| >= |sys.ops[o].plan| then sys
      else
        var id := sys.ops[o].phase.id;
        if id >= |sys.billed| then sys
        else sys.(ops := sys.ops[o := AfterAsk(sys.ops[o], request)],
                  billed := sys.billed[id := sys.billed[id] + request.cost])
    case Conclude(o) =>
      if o >= |sys.ops| || !sys.ops[o].phase.Requesting? then sys
      else
        var op := sys.ops[o];
        if !(op.required <= |op.asked| <= |op.plan|) then sys
        else SetOp(sys, o, Settling(op.phase.id, Tally(op.plan, op.asked), true))
    case SettleUp(o, fate) =>
      if o >= |sys.ops| || !sys.ops[o].phase.Settling? then sys
      else
        var op := sys.ops[o];
        var Settling(id, amount, ok) := op.phase;
        var answer := Close(sys.rows, id, amount);
        sys.(rows := if answer.Ok? && fate != NeverApplied then answer.rows else sys.rows,
             ops := sys.ops[o := op.(phase := Finished(id, amount, ok), settleCalls := op.settleCalls + 1)])
    case Enter(plan, required) =>
      sys.(ops := sys.ops + [Operation(plan, required, Start, [], 0)])
  }

  function Replay(sys: System, acts: seq<Act>): System
    decreases |acts|
  {
    if acts == [] then sys else Step(Replay(sys, acts[..|acts| - 1]), acts[|acts| - 1])
  }

  // --- Assumptions on the vendor ---------------------------------------------------------------------

  /** Each request really costs at most its own estimate, and plans estimate at nothing below zero. */
  ghost predicate Priced(sys: System, act: Act) {
    match act
    case Ask(o, request) =>
      o < |sys.ops| && sys.ops[o].phase.Requesting? && |sys.ops[o].asked| < |sys.ops[o].plan| ==>
        0.0 <= request.cost <= sys.ops[o].plan[|sys.ops[o].asked|]
    case Enter(plan, required) => SoundPlan(plan, required)
    case _ => true
  }

  ghost predicate SoundPlan(plan: seq<real>, required: nat) {
    required <= |plan| && forall i :: 0 <= i < |plan| ==> plan[i] >= 0.0
  }

  ghost predicate AllPriced(sys: System, acts: seq<Act>) {
    forall i :: 0 <= i < |acts| ==> Priced(Replay(sys, acts[..i]), acts[i])
  }

  // --- The invariant -----------------------------------------------------------------------------------

  function Reservation(phase: Phase): Option<nat> {
    match phase
    case Requesting(id) => Some(id)
    case Settling(id, _, _) => Some(id)
    case Finished(id, _, _) => Some(id)
    case _ => None
  }

  /** An operation's reservation covers what the vendor billed under it, whatever became of it. */
  ghost predicate OpSound(rows: seq<Booking>, billed: seq<real>, op: Operation) {
    && SoundPlan(op.plan, op.required)
    && op.settleCalls == (if op.phase.Finished? then 1 else 0)
    && |op.asked| <= |op.plan|
    && (op.phase.Start? || op.phase.Refused? ==> op.asked == [])
    && (Reservation(op.phase).Some? ==>
          var id := Reservation(op.phase).value;
          id < |rows| && id < |billed| && billed[id] == Cost(op.asked) && rows[id].estimated == Estimate(op))
    && match op.phase
       case Requesting(id) =>
         rows[id].actual.None? && 0.0 <= Cost(op.asked) <= Tally(op.plan, op.asked) <= Sum(op.plan[..|op.asked|])
       case Settling(id, amount, ok) =>
         && rows[id].actual.None? && 0.0 <= Cost(op.asked) <= amount <= Estimate(op)
         && amount == SettledAt(op, ok)
       case Finished(id, amount, ok) =>
         && (rows[id].actual.None? || rows[id].actual.value == amount) && Cost(op.asked) <= amount <= Estimate(op)
         && amount == SettledAt(op, ok)
       case _ => true
  }

  /** A success is settled at its tally and a failure at the whole estimate. */
  function SettledAt(op: Operation, ok: bool): real
    requires |op.asked| <= |op.plan|
  {
    if ok then Tally(op.plan, op.asked) else Estimate(op)
  }

  /** Every reservation is covered: the vendor billed under it at most what it counts for. */
  ghost predicate Covered(rows: seq<Booking>, billed: seq<real>) {
    |billed| == |rows| && forall i :: 0 <= i < |rows| ==> billed[i] <= Counts(rows[i])
  }

  ghost predicate Inv(sys: System) {
    && Committed(sys.rows) <= sys.cap
    && Covered(sys.rows, sys.billed)
    && (forall o :: 0 <= o < |sys.ops| ==> OpSound(sys.rows, sys.billed, sys.ops[o]))
    && (forall o, p :: 0 <= o < p < |sys.ops| && Reservation(sys.ops[o].phase).Some? ==>
          Reservation(sys.ops[o].phase) != Reservation(sys.ops[p].phase))
    && (forall o :: 0 <= o < |sys.ops| && Reservation(sys.ops[o].phase).Some? ==>
          Reservation(sys.ops[o].phase).value < |sys.rows|)
  }

  lemma {:induction false} SumGrows(xs: seq<real>, m: nat)
    requires m <= |xs| && forall i :: 0 <= i < |xs| ==> xs[i] >= 0.0
    ensures 0.0 <= Sum(xs[..m]) <= Sum(xs)
    ensures m < |xs| ==> Sum(xs[..m + 1]) == Sum(xs[..m]) + xs[m] && Sum(xs[..m]) + xs[m] <= Sum(xs)
    decreases |xs|
  {
    if m < |xs| {
      SumGrows(xs[..|xs| - 1], m);
      assert xs[..m + 1][..m] == xs[..m] && xs[..|xs| - 1][..m] == xs[..m];
      if m == |xs| - 1 { assert xs[..m + 1] == xs; }
      else { assert xs[..|xs| - 1][..m + 1] == xs[..m + 1]; }
    } else {
      assert xs[..m] == xs;
      if xs != [] {
        SumGrows(xs[..|xs| - 1], |xs| - 1);
        assert xs[..|xs| - 1][..|xs| - 1] == xs[..|xs| - 1];
      }
    }
  }

  /** An operation is undisturbed by changes to other reservations and by new ones. */
  lemma OpFrame(rows: seq<Booking>, billed: seq<real>, rows': seq<Booking>, billed': seq<real>, op: Operation)
    requires OpSound(rows, billed, op) && |rows| <= |rows'| && |billed| <= |billed'|
    requires Reservation(op.phase).Some? && Reservation(op.phase).value < |rows| && Reservation(op.phase).value < |billed| ==>
               var id := Reservation(op.phase).value; rows'[id] == rows[id] && billed'[id] == billed[id]
    ensures OpSound(rows', billed', op)
  {
  }

  lemma ReserveInv(sys: System, o: nat, fate: Fate)
    requires Inv(sys)
    ensures Inv(Step(sys, Reserve(o, fate)))
  {
    hide Sum, Committed;
    if o < |sys.ops| && sys.ops[o].phase.Start? {
      var next := Step(sys, Reserve(o, fate));
      SumGrows(sys.ops[o].plan, 0);
      WithinCap(sys.rows, sys.cap);
      assert OpSound(sys.rows, sys.billed, sys.ops[o]);
      forall p | 0 <= p < |next.ops| ensures OpSound(next.rows, next.billed, next.ops[p]) {
        if p != o { OpFrame(sys.rows, sys.billed, next.rows, next.billed, sys.ops[p]); }
      }
    }
  }

  /** One more request keeps the bill within the tally and the tally within its share of the plan. */
  lemma AskSound(rows: seq<Booking>, billed: seq<real>, op: Operation, request: Request)
    requires OpSound(rows, billed, op) && op.phase.Requesting? && |op.asked| < |op.plan|
    requires 0.0 <= request.cost <= op.plan[|op.asked|]
    ensures OpSound(rows, billed[op.phase.id := billed[op.phase.id] + request.cost], AfterAsk(op, request))
  {
    hide Sum;
    SumGrows(op.plan, |op.asked|);
    SumGrows(op.plan, |op.asked| + 1);
    var asked' := op.asked + [request];
    assert asked'[..|asked'| - 1] == op.asked;
  }

  lemma AskInv(sys: System, o: nat, request: Request)
    requires Inv(sys) && Priced(sys, Ask(o, request))
    ensures Inv(Step(sys, Ask(o, request)))
  {
    hide Sum, Committed, Cost, Tally;
    if o < |sys.ops| && sys.ops[o].phase.Requesting? && |sys.ops[o].asked| < |sys.ops[o].plan| {
      var op := sys.ops[o];
      var next := Step(sys, Ask(o, request));
      AskSound(sys.rows, sys.billed, op, request);
      SumGrows(op.plan, |op.asked| + 1);
      assert OpSound(next.rows, next.billed, next.ops[o]);
      assert next.billed[op.phase.id] <= Estimate(op);
      forall p | 0 <= p < |next.ops| && p != o ensures OpSound(next.rows, next.billed, next.ops[p]) {
        assert Reservation(sys.ops[p].phase) != Reservation(op.phase);
        OpFrame(sys.rows, sys.billed, next.rows, next.billed, sys.ops[p]);
      }
    }
  }

  lemma ConcludeInv(sys: System, o: nat)
    requires Inv(sys)
    ensures Inv(Step(sys, Conclude(o)))
  {
    hide Sum, Committed, Cost, Tally;
    if o < |sys.ops| && sys.ops[o].phase.Requesting? {
      var op := sys.ops[o];
      assert OpSound(sys.rows, sys.billed, op);
      SumGrows(op.plan, |op.asked|);
    }
  }

  lemma SettleInv(sys: System, o: nat, fate: Fate)
    requires Inv(sys)
    ensures Inv(Step(sys, SettleUp(o, fate)))
  {
    hide Sum, Committed, Cost, Tally;
    if o < |sys.ops| && sys.ops[o].phase.Settling? {
      var op := sys.ops[o];
      assert OpSound(sys.rows, sys.billed, op);
      WithinCap(sys.rows, sys.cap);
      var next := Step(sys, SettleUp(o, fate));
      assert Close(sys.rows, op.phase.id, op.phase.amount).Ok?;
      assert Committed(next.rows) <= sys.cap;
      forall p | 0 <= p < |next.ops| ensures OpSound(next.rows, next.billed, next.ops[p]) {
        if p != o {
          assert Reservation(sys.ops[p].phase) != Reservation(op.phase);
          OpFrame(sys.rows, sys.billed, next.rows, next.billed, sys.ops[p]);
        }
      }
    }
  }

  lemma StepInv(sys: System, act: Act)
    requires Inv(sys) && Priced(sys, act)
    ensures Inv(Step(sys, act)) && Step(sys, act).cap == sys.cap
  {
    match act
    case Reserve(o, fate) => ReserveInv(sys, o, fate);
    case Ask(o, request) => AskInv(sys, o, request);
    case Conclude(o) => ConcludeInv(sys, o);
    case SettleUp(o, fate) => SettleInv(sys, o, fate);
    case Enter(plan, required) =>
      var next := Step(sys, act);
      forall p | 0 <= p < |next.ops| ensures OpSound(next.rows, next.billed, next.ops[p]) {
        if p < |sys.ops| { assert OpSound(sys.rows, sys.billed, sys.ops[p]); }
      }
  }

  lemma {:induction false} ReplayInv(sys: System, acts: seq<Act>)
    requires Inv(sys) && AllPriced(sys, acts)
    ensures Inv(Replay(sys, acts)) && Replay(sys, acts).cap == sys.cap
    decreases |acts|
  {
    if acts != [] {
      var front := acts[..|acts| - 1];
      forall i | 0 <= i < |front| ensures Priced(Replay(sys, front[..i]), front[i]) {
        assert front[..i] == acts[..i];
        assert Priced(Replay(sys, acts[..i]), acts[i]);
      }
      ReplayInv(sys, front);
      StepInv(Replay(sys, front), acts[|acts| - 1]);
    }
  }

  lemma {:induction false} CoveredSum(rows: seq<Booking>, billed: seq<real>)
    requires Covered(rows, billed)
    ensures Sum(billed) <= Committed(rows)
    decreases |rows|
  {
    if rows != [] {
      CoveredSum(rows[..|rows| - 1], billed[..|rows| - 1]);
    }
  }

  function Opening(cap: real): System { System([], [], [], cap) }

  /**
   * The fleet budget sandwich. In every interleaving of any number of operations within a day, the
   * vendor's real bill is at most the committed total, which is at most the cap.
   */
  lemma BudgetSandwich(cap: real, acts: seq<Act>)
    requires cap >= 0.0 && AllPriced(Opening(cap), acts)
    ensures var end := Replay(Opening(cap), acts);
            Sum(end.billed) <= Committed(end.rows) <= cap
  {
    ReplayInv(Opening(cap), acts);
    var end := Replay(Opening(cap), acts);
    CoveredSum(end.rows, end.billed);
  }

  /**
   * One settlement per reservation. Whether its requests succeeded, failed midway or hid their
   * price, a finished operation made exactly one settlement call, at its tally when it succeeded
   * and at its estimate when it did not; if that call was lost the reservation still counts in full.
   */
  lemma OneSettlementEach(cap: real, acts: seq<Act>, o: nat)
    requires cap >= 0.0 && AllPriced(Opening(cap), acts) && o < |Replay(Opening(cap), acts).ops|
    ensures var end := Replay(Opening(cap), acts);
            var op := end.ops[o];
            && op.settleCalls == (if op.phase.Finished? then 1 else 0)
            && |op.asked| <= |op.plan|
            && (op.phase.Finished? ==>
                  && op.phase.id < |end.rows| && op.phase.id < |end.billed|
                  && end.rows[op.phase.id].estimated == Estimate(op)
                  && end.rows[op.phase.id].actual in {None, Some(SettledAt(op, op.phase.ok))}
                  && end.billed[op.phase.id] == Cost(op.asked) <= SettledAt(op, op.phase.ok) <= Estimate(op))
  {
    ReplayInv(Opening(cap), acts);
    var end := Replay(Opening(cap), acts);
    assert OpSound(end.rows, end.billed, end.ops[o]);
  }

  /**
   * Closing a failed operation at its own estimate does not move the day's total by a cent: the
   * open reservation already counted for exactly that.
   */
  lemma FailureMovesNothing(sys: System, o: nat, fate: Fate)
    requires Inv(sys) && o < |sys.ops| && sys.ops[o].phase.Settling? && !sys.ops[o].phase.ok
    ensures Committed(Step(sys, SettleUp(o, fate)).rows) == Committed(sys.rows)
  {
    var op := sys.ops[o];
    assert OpSound(sys.rows, sys.billed, op);
    CommittedUpdate(sys.rows, op.phase.id, sys.rows[op.phase.id].(actual := Some(op.phase.amount)));
  }

  /** One request that fails and costs more than it was estimated at. */
  function OverrunActs(estimate: real, cost: real): seq<Act> {
    [Enter([estimate], 1), Reserve(0, Delivered), Ask(0, Request(cost, true, false)), SettleUp(0, Delivered)]
  }

  /** The systems that run passes through. */
  function OverrunStates(cap: real, estimate: real, cost: real): (states: seq<System>)
    ensures |states| == 5
  {
    var op := Operation([estimate], 1, Start, [], 0);
    var failed := op.(phase := Settling(0, estimate, false), asked := [Request(cost, true, false)]);
    [Opening(cap),
     System([], [], [op], cap),
     System([Booking(estimate, None)], [0.0], [op.(phase := Requesting(0))], cap),
     System([Booking(estimate, None)], [cost], [failed], cap),
     System([Booking(estimate, Some(estimate))], [cost], [failed.(phase := Finished(0, estimate, false), settleCalls := 1)], cap)]
  }

  lemma OverrunStep(cap: real, estimate: real, cost: real, n: nat)
    requires 0.0 < estimate <= cap && n < 4
    ensures Step(OverrunStates(cap, estimate, cost)[n], OverrunActs(estimate, cost)[n]) == OverrunStates(cap, estimate, cost)[n + 1]
  {
    hide Sum, Committed, Cost, Tally;
    Singletons(estimate, Booking(estimate, None));
    var before, after := OverrunStates(cap, estimate, cost)[n], OverrunStates(cap, estimate, cost)[n + 1];
    var next := Step(before, OverrunActs(estimate, cost)[n]);
    assert [] + [Request(cost, true, false)] == [Request(cost, true, false)];
    assert next.ops == after.ops && next.rows == after.rows && next.billed == after.billed;
  }

  /**
   * The assumption on prices is needed: a failed request that cost more than its estimate leaves
   * the day under-counted by the difference.
   */
  lemma OverrunEscapes(cap: real, estimate: real, cost: real)
    requires 0.0 < estimate <= cap && cost > estimate
    ensures var end := Replay(Opening(cap), OverrunActs(estimate, cost));
            Sum(end.billed) == Committed(end.rows) + (cost - estimate)
  {
    hide Replay, Sum, Committed, Step;
    var acts, states := OverrunActs(estimate, cost), OverrunStates(cap, estimate, cost);
    ReplayNothing(Opening(cap));
    var n := 0;
    while n < 4
      invariant n <= 4 && Replay(Opening(cap), acts[..n]) == states[n]
    {
      ReplayStep(Opening(cap), acts, n);
      OverrunStep(cap, estimate, cost, n);
      n := n + 1;
    }
    assert acts[..4] == acts;
    Singletons(cost, Booking(estimate, Some(estimate)));
  }

  lemma Singletons(x: real, b: Booking)
    ensures Sum([x]) == x && Committed([]) == 0.0 && Committed([b]) == Counts(b)
  {
    assert [x][..0] == [] && [b][..0] == [];
  }

  lemma ReplayNothing(sys: System)
    ensures Replay(sys, []) == sys
  {
  }

  lemma ReplayStep(sys: System, acts: seq<Act>, n: nat)
    requires n < |acts|
    ensures Replay(sys, acts[..n + 1]) == Step(Replay(sys, acts[..n]), acts[n])
  {
    assert acts[..n + 1][..n] == acts[..n];
  }
}
