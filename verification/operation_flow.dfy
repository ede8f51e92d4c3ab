/** Operation flows: ordered steps, the single actionable one, blocking exceptions and midpoint insertion. */
module OperationFlow {
  import opened Common
  import Approval

  const SEQUENCE_STEP_GAP: int := 100

  type Code = Id

  /** A flow_step row. The table is kept in ascending `order`. */
  datatype Step = Step(code: Code, order: int, done: bool, startedAt: Option<int>, completedAt: Option<int>, blocking: Option<Id>)

  datatype FlowStatus = InProgress | Completed | Cancelled

  /** `log` is the history of completions: the codes in the order in which their steps were completed. */
  datatype Flow = Flow(steps: seq<Step>, status: FlowStatus, log: seq<Code>)

  datatype FlowError = DuplicateCode | OrderViolation | BlockedByException | StepNotFound | NoRoom

  type ExceptionStatus = map<Id, Approval.Status>

  predicate IsBlocked(s: Step, exceptions: ExceptionStatus) {
    s.blocking.Some? && s.blocking.value in exceptions && Approval.Open(exceptions[s.blocking.value])
  }

  function FirstPending(steps: seq<Step>): (i: nat)
    ensures i <= |steps|
    ensures i < |steps| ==> !steps[i].done
    ensures forall j :: 0 <= j < i ==> steps[j].done
  {
    if steps == [] then 0
    else if !steps[0].done then 0
    else 1 + FirstPending(steps[1..])
  }

  function IndexOf(steps: seq<Step>, code: Code): (i: nat)
    ensures i <= |steps|
    ensures i < |steps| ==> steps[i].code == code
    ensures forall j :: 0 <= j < i ==> steps[j].code != code
  {
    if steps == [] then 0
    else if steps[0].code == code then 0
    else 1 + IndexOf(steps[1..], code)
  }

  function Orders(steps: seq<Step>): seq<int> {
    seq(|steps|, i requires 0 <= i < |steps| => steps[i].order)
  }

  // ---- What the operations do ---------------------------------------------------------------

  predicate DistinctCodes(codes: seq<Code>) {
    forall i, j :: 0 <= i < j < |codes| ==> codes[i] != codes[j]
  }

  function Created(codes: seq<Code>, now: int): Result<Flow, FlowError> {
    if !DistinctCodes(codes) then Failure(DuplicateCode)
    else
      Success(Flow(seq(|codes|, i requires 0 <= i < |codes| =>
                         Step(codes[i], (i + 1) * SEQUENCE_STEP_GAP, false, if i == 0 then Some(now) else None, None, None)),
                   InProgress, []))
  }

  function StartFirstPending(steps: seq<Step>, now: int): (r: seq<Step>)
    ensures |r| == |steps|
  {
    var i := FirstPending(steps);
    if i == |steps| || steps[i].startedAt.Some? then steps else steps[i := steps[i].(startedAt := Some(now))]
  }

  function Complete(f: Flow, code: Code, exceptions: ExceptionStatus, now: int): Result<Flow, FlowError> {
    var i := FirstPending(f.steps);
    if i == |f.steps| || f.steps[i].code != code then Failure(OrderViolation)
    else if IsBlocked(f.steps[i], exceptions) then Failure(BlockedByException)
    else
      var done := f.steps[i := f.steps[i].(done := true, completedAt := Some(now))];
      Success(Flow(StartFirstPending(done, now),
                   if FirstPending(done) == |done| then Completed else f.status,
                   f.log + [code]))
  }

  /** The position between `orders[p]` and its successor, or past it, when there is one. */
  function MidpointAfter(orders: seq<int>, p: nat): Option<int>
    requires p < |orders|
  {
    var next := if p + 1 < |orders| then orders[p + 1] else orders[p] + SEQUENCE_STEP_GAP;
    var mid := (orders[p] + next) / 2;
    if mid <= orders[p] || mid >= next then None else Some(mid)
  }

  /** `s` placed right after position `p`. */
  function InsertStep(steps: seq<Step>, p: nat, s: Step): (r: seq<Step>)
    requires p < |steps|
    ensures |r| == |steps| + 1
    ensures forall j :: 0 <= j < |r| ==> r[j] == if j <= p then steps[j] else if j == p + 1 then s else steps[j - 1]
  {
    steps[..p + 1] + [s] + steps[p + 1..]
  }

  function Insert(f: Flow, newCode: Code, afterCode: Code, now: int): Result<Flow, FlowError> {
    var p := IndexOf(f.steps, afterCode);
    if p == |f.steps| then Failure(StepNotFound)
    else if IndexOf(f.steps, newCode) < |f.steps| then Success(f)
    else
      match MidpointAfter(Orders(f.steps), p)
      case None => Failure(NoRoom)
      case Some(order) =>
        Success(f.(steps := InsertStep(f.steps, p, Step(newCode, order, false, Some(now), None, None))))
  }

  function Blocked(f: Flow, code: Code, exception: Option<Id>): Result<Flow, FlowError> {
    var i := IndexOf(f.steps, code);
    if i == |f.steps| then Failure(StepNotFound)
    else Success(f.(steps := f.steps[i := f.steps[i].(blocking := exception)]))
  }

  /** What the reading side reports of a step. */
  datatype StepView = StepView(
    code: Code, order: int, done: bool, startedAt: Option<int>, completedAt: Option<int>,
    isActionable: bool, opensReadOnly: bool, isBlocked: bool)

  /** The link names an exception on record that nobody has decided: pending or escalated. */
  predicate AwaitsDecision(link: Option<Id>, exceptions: ExceptionStatus) {
    && link.Some? && link.value in exceptions
    && (exceptions[link.value] == Approval.Status.Pending || exceptions[link.value] == Approval.Status.Escalated)
  }

  /** `after` is `before` with step `i` done, and the step that is due then started if it was not. */
  predicate CompletedAt(before: seq<Step>, i: nat, after: seq<Step>, now: int)
    requires i < |before|
  {
    && |after| == |before|
    && after[i] == before[i].(done := true, completedAt := Some(now))
    && forall j :: 0 <= j < |after| && j != i ==>
         after[j] == if j == FirstPending(after) && before[j].startedAt.None? then before[j].(startedAt := Some(now)) else before[j]
  }

  /** `after` is `before` with one link changed, that of the step with this code. */
  predicate LinkedAt(before: seq<Step>, code: Code, link: Option<Id>, after: seq<Step>) {
    && |after| == |before|
    && forall j :: 0 <= j < |after| ==>
         after[j] == if j == IndexOf(before, code) then before[j].(blocking := link) else before[j]
  }

  /** `after` is `before` with a started step halfway between position `p` and the next. */
  predicate InsertedAt(before: seq<Step>, p: nat, code: Code, now: int, after: seq<Step>)
    requires p < |before|
  {
    var next := if p + 1 < |before| then before[p + 1].order else before[p].order + 100;
    && |after| == |before| + 1
    && after[..p + 1] == before[..p + 1] && after[p + 2..] == before[p + 1..]
    && after[p + 1] == Step(code, after[p + 1].order, false, Some(now), None, None)
    && 0 <= before[p].order + next - 2 * after[p + 1].order <= 1
  }

  /** Where and when a step is inserted, and what is refused; a code that is there already is left alone. */
  lemma InsertExactly(f: Flow, newCode: Code, afterCode: Code, now: int)
    ensures var r := Insert(f, newCode, afterCode, now);
            var p := IndexOf(f.steps, afterCode);
            && (r == Failure(StepNotFound) <==> forall i :: 0 <= i < |f.steps| ==> f.steps[i].code != afterCode)
            && (p < |f.steps| ==>
                  if exists i :: 0 <= i < |f.steps| && f.steps[i].code == newCode then r == Success(f)
                  else
                    var next := if p + 1 < |f.steps| then f.steps[p + 1].order else f.steps[p].order + 100;
                    if next - f.steps[p].order <= 1 then r == Failure(NoRoom)
                    else r.Success? && InsertedAt(f.steps, p, newCode, now, r.value.steps) && r.value == f.(steps := r.value.steps))
  {
    var p := IndexOf(f.steps, afterCode);
    if p < |f.steps| && IndexOf(f.steps, newCode) == |f.steps| && MidpointAfter(Orders(f.steps), p).Some? {
      var s := Step(newCode, MidpointAfter(Orders(f.steps), p).value, false, Some(now), None, None);
      assert InsertedAt(f.steps, p, newCode, now, InsertStep(f.steps, p, s));
    }
  }

  class FlowService {
    var steps: seq<Step>
    var status: FlowStatus
    var log: seq<Code>

    /** Creates the flow; the first step starts at once. */
    constructor (codes: seq<Code>, now: int)
      requires DistinctCodes(codes)
      ensures Created(codes, now) == Success(State())
      ensures |steps| == |codes| && status == InProgress && log == []
      ensures forall i :: 0 <= i < |steps| ==>
        steps[i] == Step(codes[i], 100 * (i + 1), false, if i == 0 then Some(now) else None, None, None)
    {
      var rows: seq<Step> := [];
      for i := 0 to |codes|
        invariant |rows| == i
        invariant forall j :: 0 <= j < i ==>
          rows[j] == Step(codes[j], (j + 1) * SEQUENCE_STEP_GAP, false, if j == 0 then Some(now) else None, None, None)
      {
        rows := rows + [Step(codes[i], (i + 1) * SEQUENCE_STEP_GAP, false, if i == 0 then Some(now) else None, None, None)];
      }
      steps, status, log := rows, InProgress, [];
      new;
      assert steps == Created(codes, now).value.steps;
    }

    function State(): Flow
      reads this
    {
      Flow(steps, status, log)
    }

    /** One pass over the steps, with a flag for the first pending one having been met. */
    method GetFlowState(exceptions: ExceptionStatus) returns (views: seq<StepView>)
      ensures |views| == |steps|
      ensures forall i :: 0 <= i < |views| ==>
        && views[i].code == steps[i].code && views[i].order == steps[i].order && views[i].done == steps[i].done
        && views[i].startedAt == steps[i].startedAt && views[i].completedAt == steps[i].completedAt
        && views[i].opensReadOnly == steps[i].done
        && views[i].isBlocked == AwaitsDecision(steps[i].blocking, exceptions)
        && views[i].isActionable == (i == FirstPending(steps) && !AwaitsDecision(steps[i].blocking, exceptions))
    {
      views := [];
      var actionableAssigned := false;
      for i := 0 to |steps|
        invariant |views| == i
        invariant actionableAssigned == (FirstPending(steps) < i)
        invariant forall j :: 0 <= j < i ==>
          views[j] == StepView(steps[j].code, steps[j].order, steps[j].done, steps[j].startedAt, steps[j].completedAt,
                               j == FirstPending(steps) && !IsBlocked(steps[j], exceptions), steps[j].done, IsBlocked(steps[j], exceptions))
      {
        var step := steps[i];
        var isBlocked := IsBlocked(step, exceptions);
        var isActionable := false;
        if !step.done && !actionableAssigned {
          actionableAssigned := true;
          isActionable := !isBlocked;
        }
        views := views + [StepView(step.code, step.order, step.done, step.startedAt, step.completedAt, isActionable, step.done, isBlocked)];
      }
    }

    method CompleteStep(code: Code, exceptions: ExceptionStatus, now: int) returns (r: Result<Step, FlowError>)
      modifies this
      ensures r.Success? == Complete(old(State()), code, exceptions, now).Success?
      ensures r.Success? ==> State() == Complete(old(State()), code, exceptions, now).value && r.value.done && r.value.code == code
      ensures r.Failure? ==> State() == old(State()) && r.error == Complete(old(State()), code, exceptions, now).error
      ensures r == Failure(OrderViolation) <==>
        var i := FirstPending(old(steps));
        i == |old(steps)| || old(steps)[i].code != code
      ensures r != Failure(OrderViolation) ==>
        var i := FirstPending(old(steps));
        && i < |old(steps)|
        && (r == Failure(BlockedByException) <==> AwaitsDecision(old(steps)[i].blocking, exceptions))
        && (r != Failure(BlockedByException) ==>
              && r.Success? && CompletedAt(old(steps), i, steps, now) && r.value == steps[i]
              && log == old(log) + [code]
              && status == if FirstPending(steps) == |steps| then Completed else old(status))
    {
      var i := FirstPending(steps);
      if i == |steps| || steps[i].code != code {
        return Failure(OrderViolation);
      }
      if IsBlocked(steps[i], exceptions) {
        return Failure(BlockedByException);
      }
      steps := steps[i := steps[i].(done := true, completedAt := Some(now))];
      log := log + [code];
      var next := FirstPending(steps);
      if next == |steps| {
        status := Completed;
      } else if steps[next].startedAt.None? {
        steps := steps[next := steps[next].(startedAt := Some(now))];
      }
      return Success(steps[i]);
    }

    method InsertDynamicStep(newCode: Code, afterCode: Code, now: int) returns (r: Result<Code, FlowError>)
      modifies this`steps
      ensures r.Success? == Insert(old(State()), newCode, afterCode, now).Success?
      ensures r.Success? ==> State() == Insert(old(State()), newCode, afterCode, now).value
      ensures r.Failure? ==> State() == old(State()) && r.error == Insert(old(State()), newCode, afterCode, now).error
    {
      var p := IndexOf(steps, afterCode);
      if p == |steps| {
        return Failure(StepNotFound);
      }
      if IndexOf(steps, newCode) < |steps| {
        return Success(newCode);
      }
      var after := steps[p].order;
      var nextOrder := if p + 1 < |steps| then steps[p + 1].order else after + SEQUENCE_STEP_GAP;
      var newOrder := (after + nextOrder) / 2;
      if newOrder <= after || newOrder >= nextOrder {
        return Failure(NoRoom);
      }
      steps := steps[..p + 1] + [Step(newCode, newOrder, false, Some(now), None, None)] + steps[p + 1..];
      return Success(newCode);
    }

    /** Links an exception to a step, which must exist. */
    method LinkBlockingException(code: Code, exception: Id) returns (r: Result<Step, FlowError>)
      modifies this`steps
      ensures r.Failure? <==> forall i :: 0 <= i < |old(steps)| ==> old(steps)[i].code != code
      ensures r.Failure? ==> r.error == StepNotFound && State() == old(State())
      ensures r.Success? ==>
        && Blocked(old(State()), code, Some(exception)) == Success(State())
        && LinkedAt(old(steps), code, Some(exception), steps)
        && r.value.blocking == Some(exception) && r.value.code == code && r.value in steps
    {
      var i := IndexOf(steps, code);
      if i == |steps| {
        return Failure(StepNotFound);
      }
      steps := steps[i := steps[i].(blocking := Some(exception))];
      return Success(steps[i]);
    }

    /** Clears the link of a step, if there is such a step; otherwise answers nothing. */
    method ClearBlockingException(code: Code) returns (cleared: Option<Step>)
      modifies this`steps
      ensures cleared.None? <==> forall i :: 0 <= i < |old(steps)| ==> old(steps)[i].code != code
      ensures cleared.None? ==> State() == old(State())
      ensures cleared.Some? ==>
        && Blocked(old(State()), code, None) == Success(State())
        && LinkedAt(old(steps), code, None, steps)
        && cleared.value.blocking.None? && cleared.value.code == code && cleared.value in steps
    {
      var i := IndexOf(steps, code);
      if i == |steps| {
        return None;
      }
      steps := steps[i := steps[i].(blocking := None)];
      return Some(steps[i]);
    }

    method CancelFlow()
      modifies this`status
      ensures State() == old(State()).(status := Cancelled)
    {
      status := Cancelled;
    }
  }

  // ---- Runs ---------------------------------------------------------------------------------

  datatype Event =
    | Completes(code: Code, exceptions: ExceptionStatus, now: int)
    | Inserts(newCode: Code, afterCode: Code, now: int)
    | Blocks(code: Code, exception: Option<Id>)
    | Cancels

  function Attempt(f: Flow, ev: Event): Result<Flow, FlowError> {
    match ev
    case Completes(code, exceptions, now) => Complete(f, code, exceptions, now)
    case Inserts(newCode, afterCode, now) => Insert(f, newCode, afterCode, now)
    case Blocks(code, exception) => Blocked(f, code, exception)
    case Cancels => Success(f.(status := Cancelled))
  }

  function Next(f: Flow, ev: Event): Flow {
    var r := Attempt(f, ev);
    if r.Success? then r.value else f
  }

  function Run(f: Flow, events: seq<Event>): Flow {
    if events == [] then f else Next(Run(f, events[..|events| - 1]), events[|events| - 1])
  }

  /** Orders strictly increase, no code repeats, and the first pending step has started. */
  ghost predicate WellOrdered(f: Flow) {
    && Ordered(f.steps)
    && (FirstPending(f.steps) < |f.steps| ==> f.steps[FirstPending(f.steps)].startedAt.Some?)
  }

  lemma FirstPendingIs(steps: seq<Step>, i: nat)
    requires i <= |steps| && (i < |steps| ==> !steps[i].done) && forall j :: 0 <= j < i ==> steps[j].done
    ensures FirstPending(steps) == i
  {
  }

  lemma IndexOfIs(steps: seq<Step>, i: nat)
    requires i < |steps| && forall j, k :: 0 <= j < k < |steps| ==> steps[j].code != steps[k].code
    ensures IndexOf(steps, steps[i].code) == i
  {
  }

  lemma RewritingKeepsOrder(steps: seq<Step>, i: nat, s: Step)
    requires Ordered(steps) && i < |steps| && s.order == steps[i].order && s.code == steps[i].code
    ensures Ordered(steps[i := s])
  {
  }

  lemma StartingKeepsOrder(steps: seq<Step>, now: int)
    requires Ordered(steps)
    ensures var r := StartFirstPending(steps, now);
            Ordered(r) && FirstPending(r) == FirstPending(steps) && (FirstPending(r) < |r| ==> r[FirstPending(r)].startedAt.Some?)
  {
    FirstPendingIs(StartFirstPending(steps, now), FirstPending(steps));
  }

  lemma CompleteKeepsOrder(f: Flow, code: Code, exceptions: ExceptionStatus, now: int)
    requires WellOrdered(f) && Complete(f, code, exceptions, now).Success?
    ensures WellOrdered(Complete(f, code, exceptions, now).value)
  {
    var i := FirstPending(f.steps);
    var s := f.steps[i].(done := true, completedAt := Some(now));
    RewritingKeepsOrder(f.steps, i, s);
    StartingKeepsOrder(f.steps[i := s], now);
  }

  ghost predicate Ordered(steps: seq<Step>) {
    forall i, j :: 0 <= i < j < |steps| ==> steps[i].order < steps[j].order && steps[i].code != steps[j].code
  }

  lemma InsertStepKeepsOrder(steps: seq<Step>, p: nat, s: Step)
    requires Ordered(steps) && p < |steps| && steps[p].order < s.order && (p + 1 < |steps| ==> s.order < steps[p + 1].order)
    requires forall j :: 0 <= j < |steps| ==> steps[j].code != s.code
    ensures Ordered(InsertStep(steps, p, s))
  {
    var r := InsertStep(steps, p, s);
    forall i, j | 0 <= i < j < |r| ensures r[i].order < r[j].order && r[i].code != r[j].code {
      if i == p + 1 {
        assert s.order < steps[p + 1].order <= steps[j - 1].order;
      } else if j == p + 1 {
        assert steps[i].order <= steps[p].order;
      }
    }
  }

  /** The new step is not done, so the first pending one is found before it, at it, or stays pending after it. */
  lemma InsertStepMovesFirstPending(steps: seq<Step>, p: nat, s: Step)
    requires p < |steps| && !s.done
    ensures FirstPending(InsertStep(steps, p, s)) == if FirstPending(steps) <= p then FirstPending(steps) else p + 1
  {
    var i, r := FirstPending(steps), InsertStep(steps, p, s);
    var k := if i <= p then i else p + 1;
    assert !r[k].done && forall j :: 0 <= j < k ==> r[j] == steps[j];
  }

  lemma InsertKeepsOrder(f: Flow, newCode: Code, afterCode: Code, now: int)
    requires WellOrdered(f) && Insert(f, newCode, afterCode, now).Success?
    ensures WellOrdered(Insert(f, newCode, afterCode, now).value)
  {
    var p := IndexOf(f.steps, afterCode);
    if IndexOf(f.steps, newCode) == |f.steps| {
      var s := Step(newCode, MidpointAfter(Orders(f.steps), p).value, false, Some(now), None, None);
      InsertStepKeepsOrder(f.steps, p, s);
      InsertStepMovesFirstPending(f.steps, p, s);
    }
  }

  lemma NextKeepsOrder(f: Flow, ev: Event)
    requires WellOrdered(f)
    ensures WellOrdered(Next(f, ev))
  {
    if Attempt(f, ev).Success? {
      match ev
      case Completes(code, exceptions, now) => CompleteKeepsOrder(f, code, exceptions, now);
      case Inserts(newCode, afterCode, now) => InsertKeepsOrder(f, newCode, afterCode, now);
      case Blocks(code, exception) => FirstPendingIs(Next(f, ev).steps, FirstPending(f.steps));
      case Cancels =>
    }
  }

  lemma {:induction false} RunsStayOrdered(codes: seq<Code>, now: int, events: seq<Event>)
    requires DistinctCodes(codes)
    ensures WellOrdered(Run(Created(codes, now).value, events))
  {
    if events != [] {
      RunsStayOrdered(codes, now, events[..|events| - 1]);
      NextKeepsOrder(Run(Created(codes, now).value, events[..|events| - 1]), events[|events| - 1]);
    }
  }

  /** What reading reports as actionable. */
  predicate Actionable(f: Flow, exceptions: ExceptionStatus, i: nat)
    requires i < |f.steps|
  {
    i == FirstPending(f.steps) && !IsBlocked(f.steps[i], exceptions)
  }

  /**
   In every reachable flow, a step is reported actionable exactly when completing it would succeed;
   it is then the pending step of least order, the only such one, and it has started.
   */
  lemma ReadsAgreeWithWrites(codes: seq<Code>, start: int, events: seq<Event>, exceptions: ExceptionStatus, now: int, i: nat)
    requires DistinctCodes(codes)
    requires i < |Run(Created(codes, start).value, events).steps|
    ensures var f := Run(Created(codes, start).value, events);
            && (Actionable(f, exceptions, i) <==> Complete(f, f.steps[i].code, exceptions, now).Success?)
            && (Actionable(f, exceptions, i) ==>
                  && !f.steps[i].done && f.steps[i].startedAt.Some?
                  && (forall j :: 0 <= j < |f.steps| && !f.steps[j].done && j != i ==>
                        f.steps[i].order < f.steps[j].order && !Actionable(f, exceptions, j)))
  {
    RunsStayOrdered(codes, start, events);
  }

  // ---- Blocking exceptions ------------------------------------------------------------------

  /** A link to an exception holds its step back exactly while the exception awaits a decision; clearing it frees the step. */
  lemma LinkHoldsBackExactly(f: Flow, exception: Id, exceptions: ExceptionStatus, now: int)
    requires WellOrdered(f) && FirstPending(f.steps) < |f.steps|
    ensures var code := f.steps[FirstPending(f.steps)].code;
            var linked, cleared := Blocked(f, code, Some(exception)), Blocked(f, code, None);
            && linked.Success? && cleared.Success?
            && (Complete(linked.value, code, exceptions, now) == Failure(BlockedByException) <==>
                  exception in exceptions &&
                  (exceptions[exception] == Approval.Status.Pending || exceptions[exception] == Approval.Status.Escalated))
            && (Complete(linked.value, code, exceptions, now).Success? <==>
                  exception in exceptions ==>
                    || exceptions[exception] == Approval.Status.Approved || exceptions[exception] == Approval.Status.Rejected
                    || exceptions[exception] == Approval.Status.Expired)
            && Complete(cleared.value, code, exceptions, now).Success?
  {
    var i := FirstPending(f.steps);
    IndexOfIs(f.steps, i);
    forall link: Option<Id> ensures FirstPending(f.steps[i := f.steps[i].(blocking := link)]) == i {
      FirstPendingIs(f.steps[i := f.steps[i].(blocking := link)], i);
    }
  }

  /** The statuses of the exceptions on record. */
  function StatusOf(x: Approval.Exceptions): ExceptionStatus {
    map id | id in x :: x[id].status
  }

  function AfterAll(types: Approval.Catalogue, x: Approval.Exceptions, events: seq<Approval.Event>): Approval.Exceptions {
    if events == [] then x
    else Approval.Next(types, AfterAll(types, x, events[..|events| - 1]), events[|events| - 1])
  }

  lemma {:induction false} StaysOnRecord(types: Approval.Catalogue, x: Approval.Exceptions, events: seq<Approval.Event>, id: Id)
    requires id in x
    ensures id in AfterAll(types, x, events)
    ensures !Approval.Open(x[id].status) ==> AfterAll(types, x, events)[id] == x[id]
  {
    if events != [] {
      StaysOnRecord(types, x, events[..|events| - 1], id);
    }
  }

  /**
   Whatever happens in the workflow, a step that awaits an exception can be completed exactly when that exception has
   been approved, rejected or has expired, and once it can, nothing in the workflow holds it back again.
   */
  lemma DecisionFreesTheStep(
    f: Flow, types: Approval.Catalogue, x: Approval.Exceptions, events: seq<Approval.Event>, later: seq<Approval.Event>, id: Id, now: int)
    requires FirstPending(f.steps) < |f.steps| && f.steps[FirstPending(f.steps)].blocking == Some(id) && id in x
    ensures var code := f.steps[FirstPending(f.steps)].code;
            var x1 := AfterAll(types, x, events);
            var x2 := AfterAll(types, x1, later);
            && id in x1
            && (Complete(f, code, StatusOf(x1), now).Success? <==>
                  || x1[id].status == Approval.Status.Approved || x1[id].status == Approval.Status.Rejected
                  || x1[id].status == Approval.Status.Expired)
            && (Complete(f, code, StatusOf(x1), now).Success? ==> Complete(f, code, StatusOf(x2), now).Success?)
  {
    StaysOnRecord(types, x, events, id);
    StaysOnRecord(types, AfterAll(types, x, events), later, id);
  }

  // ---- Completion order ---------------------------------------------------------------------

  ghost predicate DonePrefix(steps: seq<Step>) {
    forall i, j :: 0 <= i < j < |steps| && steps[j].done ==> steps[i].done
  }

  /** The DONE steps come first, and were completed in the order of their sequence. */
  ghost predicate CompletedInOrder(f: Flow) {
    && DonePrefix(f.steps)
    && |f.log| == FirstPending(f.steps)
    && forall i :: 0 <= i < |f.log| ==> f.log[i] == f.steps[i].code
  }

  /** The anchor is not followed by a DONE step: it is the last DONE step, or a pending one. */
  predicate AnchorIsCurrent(f: Flow, afterCode: Code) {
    var p := IndexOf(f.steps, afterCode);
    p + 1 < |f.steps| ==> !f.steps[p + 1].done
  }

  lemma CompleteKeepsCompletionOrder(f: Flow, code: Code, exceptions: ExceptionStatus, now: int)
    requires CompletedInOrder(f) && Complete(f, code, exceptions, now).Success?
    ensures CompletedInOrder(Complete(f, code, exceptions, now).value)
  {
    var i := FirstPending(f.steps);
    var done := f.steps[i := f.steps[i].(done := true, completedAt := Some(now))];
    FirstPendingIs(done, i + 1);
    FirstPendingIs(StartFirstPending(done, now), i + 1);
  }

  lemma InsertStepKeepsDonePrefix(steps: seq<Step>, p: nat, s: Step)
    requires p < |steps| && !s.done && DonePrefix(steps)
    ensures DonePrefix(InsertStep(steps, p, s)) <==> p + 1 < |steps| ==> !steps[p + 1].done
  {
    var r := InsertStep(steps, p, s);
    assert r[p + 1] == s;
    if p + 1 < |steps| {
      assert r[p + 2] == steps[p + 1];
    }
  }

  /** An insertion keeps completion order equal to sequence order exactly when its anchor is current. */
  lemma InsertKeepsCompletionOrderExactly(f: Flow, newCode: Code, afterCode: Code, now: int)
    requires CompletedInOrder(f) && WellOrdered(f)
    requires Insert(f, newCode, afterCode, now).Success? && IndexOf(f.steps, newCode) == |f.steps|
    ensures CompletedInOrder(Insert(f, newCode, afterCode, now).value) <==> AnchorIsCurrent(f, afterCode)
  {
    var p := IndexOf(f.steps, afterCode);
    var s := Step(newCode, MidpointAfter(Orders(f.steps), p).value, false, Some(now), None, None);
    InsertStepKeepsDonePrefix(f.steps, p, s);
    InsertStepMovesFirstPending(f.steps, p, s);
    if AnchorIsCurrent(f, afterCode) {
      assert FirstPending(f.steps) <= p + 1;
    }
  }

  /** The event inserts a step before one that is already DONE. */
  predicate Sneaks(f: Flow, ev: Event) {
    && ev.Inserts? && Insert(f, ev.newCode, ev.afterCode, ev.now).Success? && IndexOf(f.steps, ev.newCode) == |f.steps|
    && !AnchorIsCurrent(f, ev.afterCode)
  }

  predicate LogBefore(log: seq<Code>, a: Code, b: Code) {
    exists p, q :: 0 <= p < q < |log| && log[p] == a && log[q] == b
  }

  /** Some DONE step was completed without the one at an earlier position. */
  ghost predicate Overtaken(f: Flow, i: nat, j: nat) {
    i < j < |f.steps| && f.steps[j].done && !LogBefore(f.log, f.steps[i].code, f.steps[j].code)
  }

  ghost predicate OutOfOrder(f: Flow) {
    exists i: nat, j: nat :: Overtaken(f, i, j)
  }

  lemma InOrderMeansLogged(f: Flow, i: nat, j: nat)
    requires CompletedInOrder(f) && i < j < |f.steps| && f.steps[j].done
    ensures LogBefore(f.log, f.steps[i].code, f.steps[j].code)
  {
    assert f.steps[i].done && j < FirstPending(f.steps);
    assert f.log[i] == f.steps[i].code && f.log[j] == f.steps[j].code;
  }

  lemma OutOfOrderIsNotInOrder(f: Flow)
    requires OutOfOrder(f)
    ensures !CompletedInOrder(f)
  {
    var i: nat, j: nat :| Overtaken(f, i, j);
    if CompletedInOrder(f) {
      InOrderMeansLogged(f, i, j);
    }
  }

  lemma SneakingOvertakes(f: Flow, ev: Event)
    requires CompletedInOrder(f) && WellOrdered(f) && Sneaks(f, ev)
    ensures OutOfOrder(Next(f, ev))
  {
    var p, f' := IndexOf(f.steps, ev.afterCode), Next(f, ev);
    assert f'.steps[p + 1].code == ev.newCode && f'.steps[p + 2] == f.steps[p + 1];
    forall q | 0 <= q < |f.log| ensures f.log[q] != ev.newCode {
      assert f.log[q] == f.steps[q].code;
    }
    assert Overtaken(f', p + 1, p + 2);
  }

  lemma CompletionStaysOvertaken(f: Flow, ev: Event, i: nat, j: nat)
    requires WellOrdered(f) && Overtaken(f, i, j) && ev.Completes? && Attempt(f, ev).Success?
    ensures Overtaken(Next(f, ev), i, j)
  {
    var k, f' := FirstPending(f.steps), Next(f, ev);
    assert f'.log == f.log + [f.steps[k].code] && f.steps[j].code != f.steps[k].code;
    assert f'.steps[i].code == f.steps[i].code && f'.steps[j].code == f.steps[j].code && f'.steps[j].done;
  }

  lemma InsertionStaysOvertaken(f: Flow, ev: Event, i: nat, j: nat)
    requires Overtaken(f, i, j) && ev.Inserts? && Attempt(f, ev).Success?
    ensures OutOfOrder(Next(f, ev))
  {
    var f' := Next(f, ev);
    if IndexOf(f.steps, ev.newCode) < |f.steps| {
      assert f' == f;
    } else {
      var p := IndexOf(f.steps, ev.afterCode);
      var i', j' := if i <= p then i else i + 1, if j <= p then j else j + 1;
      assert f'.steps[i'] == f.steps[i] && f'.steps[j'] == f.steps[j];
      assert Overtaken(f', i', j');
    }
  }

  /** What was overtaken once stays so: completion is never undone, and insertions keep the relative order. */
  lemma OutOfOrderForGood(f: Flow, ev: Event)
    requires WellOrdered(f) && OutOfOrder(f)
    ensures OutOfOrder(Next(f, ev))
  {
    var i: nat, j: nat :| Overtaken(f, i, j);
    if Attempt(f, ev).Success? {
      match ev
      case Completes(_, _, _) => CompletionStaysOvertaken(f, ev, i, j);
      case Inserts(_, _, _) => InsertionStaysOvertaken(f, ev, i, j);
      case Blocks(_, _) => assert Overtaken(Next(f, ev), i, j);
      case Cancels => assert Overtaken(Next(f, ev), i, j);
    }
  }

  lemma StepKeepsCompletionOrder(f: Flow, ev: Event)
    requires CompletedInOrder(f) && WellOrdered(f) && !Sneaks(f, ev)
    ensures CompletedInOrder(Next(f, ev))
  {
    if Attempt(f, ev).Success? {
      match ev
      case Completes(code, exceptions, now) => CompleteKeepsCompletionOrder(f, code, exceptions, now);
      case Inserts(newCode, afterCode, now) =>
        if IndexOf(f.steps, newCode) == |f.steps| {
          InsertKeepsCompletionOrderExactly(f, newCode, afterCode, now);
        }
      case Blocks(_, _) => FirstPendingIs(Next(f, ev).steps, FirstPending(f.steps));
      case Cancels =>
    }
  }

  predicate NeverSneaks(f: Flow, events: seq<Event>) {
    events == [] ||
    (NeverSneaks(f, events[..|events| - 1]) && !Sneaks(Run(f, events[..|events| - 1]), events[|events| - 1]))
  }

  /**
   In every run, the DONE steps come first and were completed in the order of their sequence if and only
   if no step was ever inserted before a DONE one; otherwise some step stays overtaken for good.
   */
  lemma {:induction false} RunsCompleteInOrderExactly(codes: seq<Code>, now: int, events: seq<Event>)
    requires DistinctCodes(codes)
    ensures var start := Created(codes, now).value;
            && (CompletedInOrder(Run(start, events)) <==> NeverSneaks(start, events))
            && (OutOfOrder(Run(start, events)) <==> !NeverSneaks(start, events))
  {
    var start := Created(codes, now).value;
    if events == [] {
      FirstPendingIs(start.steps, 0);
    } else {
      var front, ev := events[..|events| - 1], events[|events| - 1];
      RunsCompleteInOrderExactly(codes, now, front);
      RunsStayOrdered(codes, now, front);
      var f := Run(start, front);
      if !NeverSneaks(start, front) {
        OutOfOrderForGood(f, ev);
      } else if Sneaks(f, ev) {
        SneakingOvertakes(f, ev);
      } else {
        StepKeepsCompletionOrder(f, ev);
      }
      if OutOfOrder(Next(f, ev)) {
        OutOfOrderIsNotInOrder(Next(f, ev));
      }
    }
  }

  /** Of three steps two are completed; then one is inserted after the first, and completed. */
  predicate LateInsertion(events: seq<Event>) {
    && |events| == 4
    && events[0] == Completes(1, map[], 0) && events[1] == Completes(2, map[], 0)
    && events[2] == Inserts(9, 1, 0) && events[3] == Completes(9, map[], 0)
  }

  lemma TwoAreCompleted(f: Flow)
    requires f == Created([1, 2, 3], 0).value
    ensures var g := Next(Next(f, Completes(1, map[], 0)), Completes(2, map[], 0));
            && |g.steps| == 3 && g.log == [1, 2] && g.steps[0].code == 1 && g.steps[1].code == 2 && g.steps[2].code == 3
            && g.steps[0].done && g.steps[1].done && !g.steps[2].done && g.steps[0].order == 100 && g.steps[1].order == 200
  {
    FirstPendingIs(f.steps, 0);
    var g := Next(f, Completes(1, map[], 0));
    FirstPendingIs(g.steps, 1);
    assert g.log == [1];
  }

  lemma InsertedAndCompleted(g: Flow)
    requires |g.steps| == 3 && g.log == [1, 2] && g.steps[0].code == 1 && g.steps[1].code == 2 && g.steps[2].code == 3
    requires g.steps[0].done && g.steps[1].done && !g.steps[2].done && g.steps[0].order == 100 && g.steps[1].order == 200
    ensures Sneaks(g, Inserts(9, 1, 0))
    ensures var h := Next(Next(g, Inserts(9, 1, 0)), Completes(9, map[], 0));
            && h.log == [1, 2, 9] && |h.steps| == 4
            && h.steps[0].code == 1 && h.steps[1].code == 9 && h.steps[2].code == 2 && h.steps[1].done && h.steps[2].done
  {
    assert IndexOf(g.steps, 1) == 0;
    assert IndexOf(g.steps, 9) == 3;
    assert Orders(g.steps)[0] == 100 && Orders(g.steps)[1] == 200;
    var i := Next(g, Inserts(9, 1, 0));
    FirstPendingIs(i.steps, 1);
  }

  /** In that run the log of completions and the sequence of the steps disagree. */
  lemma LateInsertionOvertakes(events: seq<Event>)
    requires LateInsertion(events)
    ensures var h := Run(Created([1, 2, 3], 0).value, events);
            && !CompletedInOrder(h) && h.log == [1, 2, 9] && |h.steps| == 4
            && h.steps[1].code == 9 && h.steps[2].code == 2 && h.steps[1].done && h.steps[2].done
  {
    var f := Created([1, 2, 3], 0).value;
    assert events[..3][..2][..1][..0] == [] && events[..3][..2] == events[..2] && events[..2][..1] == events[..1];
    assert Run(f, events[..1]) == Next(f, events[0]);
    assert Run(f, events[..2]) == Next(Run(f, events[..1]), events[1]);
    TwoAreCompleted(f);
    InsertedAndCompleted(Run(f, events[..2]));
    assert Run(f, events[..3]) == Next(Run(f, events[..2]), events[2]);
  }

  // ---- Room for insertions ------------------------------------------------------------------

  ghost predicate Increasing(orders: seq<int>) {
    forall i, j :: 0 <= i < j < |orders| ==> orders[i] < orders[j]
  }

  /** `mid` placed right after position `p`. */
  function InsertMid(orders: seq<int>, p: nat, mid: int): (r: seq<int>)
    requires p < |orders|
    ensures |r| == |orders| + 1
    ensures forall i :: 0 <= i < |r| ==> r[i] == if i <= p then orders[i] else if i == p + 1 then mid else orders[i - 1]
  {
    orders[..p + 1] + [mid] + orders[p + 1..]
  }

  function InsertOrder(orders: seq<int>, p: nat): Option<seq<int>>
    requires p < |orders|
  {
    match MidpointAfter(orders, p)
    case None => None
    case Some(mid) => Some(InsertMid(orders, p, mid))
  }

  /** A step insertion is an insertion into the list of orders. */
  lemma InsertIsInsertOrder(f: Flow, newCode: Code, afterCode: Code, now: int)
    requires IndexOf(f.steps, afterCode) < |f.steps| && IndexOf(f.steps, newCode) == |f.steps|
    ensures var r := InsertOrder(Orders(f.steps), IndexOf(f.steps, afterCode));
            && (Insert(f, newCode, afterCode, now).Success? <==> r.Some?)
            && (r.Some? ==> Orders(Insert(f, newCode, afterCode, now).value.steps) == r.value)
  {
    var r := InsertOrder(Orders(f.steps), IndexOf(f.steps, afterCode));
    if r.Some? {
      assert Orders(Insert(f, newCode, afterCode, now).value.steps) == r.value;
    }
  }

  /** Between two positions, neighbours are at least `g` apart. */
  ghost predicate Spaced(orders: seq<int>, lo: int, hi: int, g: nat) {
    && Increasing(orders)
    && forall i :: 0 <= i < |orders| && lo <= orders[i] < hi ==>
        i + 1 < |orders| && orders[i + 1] <= hi && orders[i] + g <= orders[i + 1]
  }

  /** Each anchor, when its turn comes, lies between the two positions. */
  ghost predicate AnchorsBetween(orders: seq<int>, ps: seq<nat>, lo: int, hi: int)
    decreases |ps|
  {
    ps == [] ||
    (&& ps[0] < |orders| && lo <= orders[ps[0]] < hi
     && (InsertOrder(orders, ps[0]).Some? ==> AnchorsBetween(InsertOrder(orders, ps[0]).value, ps[1..], lo, hi)))
  }

  ghost predicate AllFit(orders: seq<int>, ps: seq<nat>)
    decreases |ps|
  {
    ps == [] ||
    (&& ps[0] < |orders| && InsertOrder(orders, ps[0]).Some?
     && AllFit(InsertOrder(orders, ps[0]).value, ps[1..]))
  }

  lemma InsertMidKeepsIncreasing(orders: seq<int>, p: nat, mid: int)
    requires Increasing(orders) && p < |orders| && orders[p] < mid && (p + 1 < |orders| ==> mid < orders[p + 1])
    ensures Increasing(InsertMid(orders, p, mid))
  {
    var r := InsertMid(orders, p, mid);
    forall i, j | 0 <= i < j < |r| ensures r[i] < r[j] {
      if i == p + 1 {
        assert mid < orders[p + 1] <= orders[j - 1];
      } else if j == p + 1 {
        assert orders[i] <= orders[p];
      }
    }
  }

  lemma InsertMidSpaces(orders: seq<int>, p: nat, mid: int, lo: int, hi: int, g: nat)
    requires Spaced(orders, lo, hi, 2 * g) && p + 1 < |orders| && lo <= orders[p] < hi
    requires orders[p] + g <= mid && mid + g <= orders[p + 1] && orders[p] < mid < orders[p + 1]
    ensures Spaced(InsertMid(orders, p, mid), lo, hi, g)
  {
    InsertMidKeepsIncreasing(orders, p, mid);
    var r := InsertMid(orders, p, mid);
    forall i | 0 <= i < |r| && lo <= r[i] < hi ensures i + 1 < |r| && r[i + 1] <= hi && r[i] + g <= r[i + 1] {
      if i > p + 1 {
        assert r[i] == orders[i - 1];
      }
    }
  }

  lemma HalfOfAGap(a: int, b: int, g: nat)
    requires a + 2 * g <= b
    ensures a + g <= (a + b) / 2 && (a + b) / 2 + g <= b
  {
  }

  lemma NextInGap(orders: seq<int>, p: nat, lo: int, hi: int, g: nat)
    requires Spaced(orders, lo, hi, g) && p < |orders| && lo <= orders[p] < hi
    ensures p + 1 < |orders| && orders[p] + g <= orders[p + 1] <= hi
  {
  }

  lemma InsertionHalvesTheGap(orders: seq<int>, p: nat, lo: int, hi: int, g: nat)
    requires Spaced(orders, lo, hi, 2 * g) && g > 0
    requires p < |orders| && lo <= orders[p] < hi
    ensures InsertOrder(orders, p).Some? && Spaced(InsertOrder(orders, p).value, lo, hi, g)
  {
    NextInGap(orders, p, lo, hi, 2 * g);
    var mid := (orders[p] + orders[p + 1]) / 2;
    HalfOfAGap(orders[p], orders[p + 1], g);
    assert MidpointAfter(orders, p) == Some(mid);
    InsertMidSpaces(orders, p, mid, lo, hi, g);
  }

  lemma AnchorsGoOn(orders: seq<int>, ps: seq<nat>, lo: int, hi: int)
    requires ps != [] && AnchorsBetween(orders, ps, lo, hi)
    ensures ps[0] < |orders| && lo <= orders[ps[0]] < hi
    ensures InsertOrder(orders, ps[0]).Some? ==> AnchorsBetween(InsertOrder(orders, ps[0]).value, ps[1..], lo, hi)
  {
  }

  lemma FitGoesOn(orders: seq<int>, ps: seq<nat>, rest: seq<int>)
    requires ps != [] && ps[0] < |orders| && InsertOrder(orders, ps[0]) == Some(rest) && AllFit(rest, ps[1..])
    ensures AllFit(orders, ps)
  {
  }

  /** The first insertion finds room, and leaves half the gap for the others. */
  lemma FirstFits(orders: seq<int>, ps: seq<nat>, lo: int, hi: int) returns (rest: seq<int>)
    requires ps != [] && Spaced(orders, lo, hi, Pow2(|ps|)) && AnchorsBetween(orders, ps, lo, hi)
    ensures ps[0] < |orders| && InsertOrder(orders, ps[0]) == Some(rest)
    ensures Spaced(rest, lo, hi, Pow2(|ps| - 1)) && AnchorsBetween(rest, ps[1..], lo, hi)
  {
    AnchorsGoOn(orders, ps, lo, hi);
    InsertionHalvesTheGap(orders, ps[0], lo, hi, Pow2(|ps| - 1));
    rest := InsertOrder(orders, ps[0]).value;
  }

  /** Any `k` insertions inside a gap of at least two to the `k` find room, wherever they go. */
  lemma {:induction false} GapAdmitsInsertions(orders: seq<int>, ps: seq<nat>, lo: int, hi: int)
    requires Spaced(orders, lo, hi, Pow2(|ps|)) && AnchorsBetween(orders, ps, lo, hi)
    ensures AllFit(orders, ps)
    decreases |ps|
  {
    if ps != [] {
      var rest := FirstFits(orders, ps, lo, hi);
      assert |ps[1..]| == |ps| - 1;
      GapAdmitsInsertions(rest, ps[1..], lo, hi);
      FitGoesOn(orders, ps, rest);
    }
  }

  /** Two fixed steps, a hundred apart, always admit six insertions between them. */
  lemma FixedGapAdmitsSix(orders: seq<int>, i: nat, ps: seq<nat>)
    requires Increasing(orders) && i + 1 < |orders| && orders[i + 1] == orders[i] + SEQUENCE_STEP_GAP
    requires |ps| <= 6 && AnchorsBetween(orders, ps, orders[i], orders[i + 1])
    ensures AllFit(orders, ps)
  {
    assert Pow2(3) == 8 && Pow2(6) == 64;
    PowMonotone(|ps|, 6);
    forall j | 0 <= j < |orders| && orders[i] <= orders[j] < orders[i + 1] ensures j == i {
    }
    GapAdmitsInsertions(orders, ps, orders[i], orders[i + 1]);
  }

  lemma {:induction false} PowMonotone(m: nat, n: nat)
    requires m <= n
    ensures Pow2(m) <= Pow2(n)
  {
    if m < n {
      PowMonotone(m, n - 1);
    }
  }

  /** The same anchor, `n` times over. */
  function Repeated(p: nat, n: nat): (r: seq<nat>)
    ensures |r| == n && forall i :: 0 <= i < n ==> r[i] == p
  {
    seq(n, i => p)
  }

  /** Inserting `k` times right after the same step does not fit a gap below two to the `k`. */
  lemma {:induction false} NarrowGapRefuses(orders: seq<int>, p: nat, k: nat, lo: int, hi: int)
    requires Increasing(orders) && p + 1 < |orders| && orders[p + 1] - orders[p] < Pow2(k) && lo <= orders[p] < hi
    ensures AnchorsBetween(orders, Repeated(p, k), lo, hi) && !AllFit(orders, Repeated(p, k))
    decreases k
  {
    assert k > 0;
    assert Repeated(p, k)[1..] == Repeated(p, k - 1);
    if InsertOrder(orders, p).Some? {
      var mid := MidpointAfter(orders, p).value;
      var next := InsertMid(orders, p, mid);
      InsertMidKeepsIncreasing(orders, p, mid);
      assert next[p] == orders[p] && next[p + 1] == mid;
      NarrowGapRefuses(next, p, k - 1, lo, hi);
    }
  }

  /** Between two neighbouring steps, every choice of `k` insertions finds room if and only if they are at least two to the `k` apart. */
  lemma GapAdmitsExactly(orders: seq<int>, i: nat, k: nat)
    requires Increasing(orders) && i + 1 < |orders|
    ensures (forall ps: seq<nat> :: |ps| == k && AnchorsBetween(orders, ps, orders[i], orders[i + 1]) ==> AllFit(orders, ps))
            <==> orders[i + 1] - orders[i] >= Pow2(k)
  {
    if orders[i + 1] - orders[i] >= Pow2(k) {
      assert Spaced(orders, orders[i], orders[i + 1], Pow2(k)) by {
        forall j | 0 <= j < |orders| && orders[i] <= orders[j] < orders[i + 1] ensures j == i {
        }
      }
      forall ps: seq<nat> | |ps| == k && AnchorsBetween(orders, ps, orders[i], orders[i + 1]) ensures AllFit(orders, ps) {
        GapAdmitsInsertions(orders, ps, orders[i], orders[i + 1]);
      }
    } else {
      NarrowGapRefuses(orders, i, k, orders[i], orders[i + 1]);
    }
  }

  /** So six is all the fixed gap guarantees: always inserting right after the same step, the seventh finds no room. */
  lemma SeventhMayNotFit(orders: seq<int>, i: nat)
    requires Increasing(orders) && i + 1 < |orders| && orders[i + 1] == orders[i] + SEQUENCE_STEP_GAP
    ensures AllFit(orders, Repeated(i, 6)) && !AllFit(orders, Repeated(i, 7))
  {
    assert Pow2(3) == 8 && Pow2(6) == 64 && Pow2(7) == 128;
    NarrowGapRefuses(orders, i, 7, orders[i], orders[i + 1]);
    RepeatedStaysBetween(orders, i, 6, orders[i], orders[i + 1]);
    FixedGapAdmitsSix(orders, i, Repeated(i, 6));
  }

  lemma {:induction false} RepeatedStaysBetween(orders: seq<int>, p: nat, k: nat, lo: int, hi: int)
    requires p < |orders| && lo <= orders[p] < hi
    ensures AnchorsBetween(orders, Repeated(p, k), lo, hi)
    decreases k
  {
    if k > 0 {
      assert Repeated(p, k)[1..] == Repeated(p, k - 1);
      if InsertOrder(orders, p).Some? {
        RepeatedStaysBetween(InsertOrder(orders, p).value, p, k - 1, lo, hi);
      }
    }
  }

  /** Appending after the last step always finds room. */
  lemma AppendAlwaysFits(f: Flow, newCode: Code, now: int)
    requires WellOrdered(f) && f.steps != [] && IndexOf(f.steps, newCode) == |f.steps|
    ensures var last := f.steps[|f.steps| - 1];
            var r := Insert(f, newCode, last.code, now);
            && r.Success? && |r.value.steps| == |f.steps| + 1
            && r.value.steps[|f.steps|].code == newCode && r.value.steps[|f.steps|].order == last.order + SEQUENCE_STEP_GAP / 2
  {
    IndexOfIs(f.steps, |f.steps| - 1);
    assert (2 * f.steps[|f.steps| - 1].order + SEQUENCE_STEP_GAP) / 2 == f.steps[|f.steps| - 1].order + SEQUENCE_STEP_GAP / 2;
  }
}
