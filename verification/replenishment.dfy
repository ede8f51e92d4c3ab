/** Replenishment tasks: the executor that is idempotent by operation, and what it does to the ledger. */
module Replenishment {
  import opened Common
  import opened StockEffects
  import opened StockLedger

  datatype TaskStatus = Created | Assigned | InExecution | Done | Cancelled | RejectedScan

  datatype Task = Task(
    tenant: Id, warehouse: Id, product: Id, batch: Option<Id>, origin: Id, destination: Id, qty: int, status: TaskStatus)

  /** The locations that the two scanned codes were resolved to, if any. */
  datatype Scan = Scan(from: Option<Id>, to: Option<Id>)

  /** The stored result of an operation, with the ledger row that its transaction wrote. */
  datatype Receipt = Receipt(task: Id, movement: nat)

  datatype Tables = Tables(tasks: map<Id, Task>, operations: map<Id, Receipt>, stock: Stock)

  datatype ExecutionError =
    | TaskNotFound
    | TaskNotExecutable
    | TaskNotAssignable
    | OriginScanMismatch
    | DestinationScanMismatch
    | Movement(cause: MovementError)

  datatype Execution = Execution(tables: Tables, outcome: Result<Receipt, ExecutionError>)

  predicate IsOpen(s: TaskStatus) {
    s.Created? || s.Assigned? || s.InExecution? || s.RejectedScan?
  }

  predicate Executable(s: TaskStatus) {
    s.Assigned? || s.InExecution? || s.RejectedScan?
  }

  function ReposicaoMovement(id: Id, t: Task): Movement {
    StockLedger.Movement.Movement(
      t.tenant, t.warehouse, None, Reposicao, t.product, t.batch, t.qty, Some(t.origin), None, Some(t.destination), None,
      Some(Available), None, None, Some(id), None, false)
  }

  function WithStatus(t: Tables, id: Id, status: TaskStatus): Tables
    requires id in t.tasks
  {
    t.(tasks := t.tasks[id := t.tasks[id].(status := status)])
  }

  function Executed(t: Tables, op: Id, id: Id, scan: Scan): Execution {
    if op in t.operations then Execution(t, Success(t.operations[op]))
    else if id !in t.tasks then Execution(t, Failure(TaskNotFound))
    else if !Executable(t.tasks[id].status) then Execution(t, Failure(TaskNotExecutable))
    else if scan.from != Some(t.tasks[id].origin) then Execution(WithStatus(t, id, RejectedScan), Failure(OriginScanMismatch))
    else if scan.to != Some(t.tasks[id].destination) then Execution(WithStatus(t, id, RejectedScan), Failure(DestinationScanMismatch))
    else
      match Applied(t.stock, ReposicaoMovement(id, t.tasks[id]))
      case Failure(error) => Execution(t, Failure(ExecutionError.Movement(error)))
      case Success(moved) =>
        var receipt := Receipt(id, |t.stock.ledger|);
        Execution(Tables(WithStatus(t, id, Done).tasks, t.operations[op := receipt], moved), Success(receipt))
  }

  predicate OpenFor(tasks: map<Id, Task>, product: Id, destination: Id) {
    exists id :: id in tasks && tasks[id].product == product && tasks[id].destination == destination && IsOpen(tasks[id].status)
  }

  /** A new task, unless one is open for the same product and destination. */
  function Generated(t: Tables, id: Id, task: Task): Tables {
    if OpenFor(t.tasks, task.product, task.destination) then t
    else t.(tasks := t.tasks[id := task.(status := Created)])
  }

  function AssignedTask(t: Tables, id: Id): Result<Tables, ExecutionError> {
    if id !in t.tasks then Failure(TaskNotFound)
    else if !t.tasks[id].status.Created? && !t.tasks[id].status.RejectedScan? then Failure(TaskNotAssignable)
    else Success(WithStatus(t, id, Assigned))
  }

  /** The available stock of a task's content at a location, on no pallet. */
  function AvailableAt(task: Task, location: Id): Leg {
    Leg(Key(task.tenant, task.warehouse, task.product, task.batch, Some(location), None), Available)
  }

  /** The whole quantity of the task moved from its origin to its destination; nothing else did. */
  ghost predicate Relocated(before: Stock, task: Task, after: Stock) {
    && |after.ledger| == |before.ledger| + 1 && before.ledger <= after.ledger
    && forall l: Leg :: Qty(after.balances, l) ==
         Qty(before.balances, l)
         - (if l == AvailableAt(task, task.origin) then task.qty else 0)
         + (if l == AvailableAt(task, task.destination) then task.qty else 0)
  }

  /** What becomes of an operation that was not processed before, on a task it may execute with the right scan. */
  ghost predicate ExecutesOn(t: Tables, op: Id, id: Id, task: Task, e: Execution) {
    if task.qty <= 0 then e == Execution(t, Failure(ExecutionError.Movement(InvalidQty)))
    else if Qty(t.stock.balances, AvailableAt(task, task.origin)) < task.qty then
      e == Execution(t, Failure(ExecutionError.Movement(InsufficientBalance)))
    else
      && e.outcome == Success(Receipt(id, |t.stock.ledger|))
      && e.tables.tasks == t.tasks[id := task.(status := Done)]
      && e.tables.operations == t.operations[op := Receipt(id, |t.stock.ledger|)]
      && Relocated(t.stock, task, e.tables.stock)
  }

  lemma ExecutesRightScan(t: Tables, op: Id, id: Id)
    requires op !in t.operations && id in t.tasks && t.tasks[id].status in {Assigned, InExecution, RejectedScan}
    ensures ExecutesOn(t, op, id, t.tasks[id],
                       Executed(t, op, id, Scan(Some(t.tasks[id].origin), Some(t.tasks[id].destination))))
  {
  }

  /**
   A processed operation is answered again; otherwise only an assigned, started or wrongly scanned task is executed:
   a wrong scan is recorded on it, and the right one moves its stock if the origin has it. Nothing else changes.
   */
  lemma ExecutedExactly(t: Tables, op: Id, id: Id, scan: Scan)
    ensures var e := Executed(t, op, id, scan);
            if op in t.operations then e == Execution(t, Success(t.operations[op]))
            else if id !in t.tasks then e == Execution(t, Failure(TaskNotFound))
            else
              var task := t.tasks[id];
              if task.status !in {Assigned, InExecution, RejectedScan} then e == Execution(t, Failure(TaskNotExecutable))
              else if scan == Scan(Some(task.origin), Some(task.destination)) then ExecutesOn(t, op, id, task, e)
              else
                && e.tables == Tables(t.tasks[id := task.(status := RejectedScan)], t.operations, t.stock)
                && e.outcome == Failure(if scan.from == Some(task.origin) then DestinationScanMismatch else OriginScanMismatch)
  {
    if op !in t.operations && id in t.tasks && t.tasks[id].status in {Assigned, InExecution, RejectedScan} {
      ExecutesRightScan(t, op, id);
    }
  }

  class ReplenishmentService {
    const stock: StockDatabase
    var tasks: map<Id, Task>
    var operations: map<Id, Receipt>

    constructor (stock: StockDatabase)
      ensures this.stock == stock && tasks == map[] && operations == map[]
    {
      this.stock := stock;
      tasks := map[];
      operations := map[];
    }

    function State(): Tables
      reads this, stock
    {
      Tables(tasks, operations, stock.State())
    }

    method GenerateIfNeeded(id: Id, task: Task) returns (skipped: bool)
      modifies this`tasks
      ensures State() == Generated(old(State()), id, task)
      ensures skipped <==> exists k ::
        && k in old(tasks) && old(tasks)[k].product == task.product && old(tasks)[k].destination == task.destination
        && old(tasks)[k].status in {TaskStatus.Created, Assigned, InExecution, RejectedScan}
      ensures tasks == if skipped then old(tasks) else old(tasks)[id := task.(status := TaskStatus.Created)]
    {
      skipped := exists k :: k in tasks && tasks[k].product == task.product && tasks[k].destination == task.destination && IsOpen(tasks[k].status);
      if !skipped {
        tasks := tasks[id := task.(status := Created)];
      }
    }

    method AssignTask(id: Id) returns (r: Result<Task, ExecutionError>)
      modifies this`tasks
      ensures r.Success? == AssignedTask(old(State()), id).Success?
      ensures State() == if r.Success? then AssignedTask(old(State()), id).value else old(State())
      ensures r.Failure? ==> r.error == AssignedTask(old(State()), id).error
      ensures r == Failure(TaskNotFound) <==> id !in old(tasks)
      ensures r.Success? <==> id in old(tasks) && old(tasks)[id].status in {TaskStatus.Created, RejectedScan}
      ensures r.Failure? ==> r.error in {TaskNotFound, TaskNotAssignable} && tasks == old(tasks)
      ensures r.Success? ==> r.value == old(tasks)[id].(status := Assigned) && tasks == old(tasks)[id := r.value]
    {
      if id !in tasks {
        return Failure(TaskNotFound);
      }
      if !tasks[id].status.Created? && !tasks[id].status.RejectedScan? {
        return Failure(TaskNotAssignable);
      }
      tasks := tasks[id := tasks[id].(status := Assigned)];
      return Success(tasks[id]);
    }

    /** A failed scan is recorded on the task even though the call fails. */
    method ExecuteTask(op: Id, id: Id, scan: Scan) returns (r: Result<Receipt, ExecutionError>)
      modifies this, stock
      ensures Executed(old(State()), op, id, scan) == Execution(State(), r)
    {
      if op in operations {
        return Success(operations[op]);
      }
      if id !in tasks {
        return Failure(TaskNotFound);
      }
      var task := tasks[id];
      if !Executable(task.status) {
        return Failure(TaskNotExecutable);
      }
      if scan.from != Some(task.origin) {
        tasks := tasks[id := task.(status := RejectedScan)];
        return Failure(OriginScanMismatch);
      }
      if scan.to != Some(task.destination) {
        tasks := tasks[id := task.(status := RejectedScan)];
        return Failure(DestinationScanMismatch);
      }
      var movement := stock.Apply(ReposicaoMovement(id, task));
      if movement.Failure? {
        return Failure(ExecutionError.Movement(movement.error));
      }
      tasks := tasks[id := task.(status := Done)];
      var receipt := Receipt(id, movement.value.movementIds[0]);
      operations := operations[op := receipt];
      return Success(receipt);
    }
  }

  // ---- What every step keeps ---------------------------------------------------------------

  datatype Event =
    | Executes(op: Id, id: Id, scan: Scan)
    | Generates(id: Id, task: Task)
    | Assigns(id: Id)
    | Cancels(id: Id)
    | OtherMovement(movement: Movement)

  /** Elsewhere nothing posts a replenishment movement; a finished task is never cancelled. */
  predicate Enabled(t: Tables, ev: Event) {
    match ev
    case Executes(_, _, _) => true
    case Generates(id, task) => id !in t.tasks && task.qty > 0
    case Assigns(_) => true
    case Cancels(id) => id in t.tasks && IsOpen(t.tasks[id].status)
    case OtherMovement(movement) => !movement.movementType.Reposicao?
  }

  function Next(t: Tables, ev: Event): Tables {
    if !Enabled(t, ev) then t
    else
      match ev
      case Executes(op, id, scan) => Executed(t, op, id, scan).tables
      case Generates(id, task) => Generated(t, id, task)
      case Assigns(id) => if AssignedTask(t, id).Success? then AssignedTask(t, id).value else t
      case Cancels(id) => WithStatus(t, id, Cancelled)
      case OtherMovement(movement) => t.(stock := Step(t.stock, movement))
  }

  /** Row `i` is the one movement of the task that receipt `r` is about: its whole quantity, from origin to destination. */
  predicate IsMovementOf(t: Tables, i: nat, r: Receipt) {
    && i < |t.stock.ledger| && r.task in t.tasks
    && var row, task := t.stock.ledger[i], t.tasks[r.task];
    && row.movementType.Reposicao? && row.task == Some(r.task) && row.qty == task.qty
    && row.DebitLeg() == Some(Leg(Key(task.tenant, task.warehouse, task.product, task.batch, Some(task.origin), None), Available))
    && row.CreditLeg() == Some(Leg(Key(task.tenant, task.warehouse, task.product, task.batch, Some(task.destination), None), Available))
  }

  /** Every receipt names its movement, different receipts name different ones, and finish different tasks. */
  ghost predicate ReceiptsOk(t: Tables) {
    && (forall op :: op in t.operations ==>
          IsMovementOf(t, t.operations[op].movement, t.operations[op]) && t.tasks[t.operations[op].task].status.Done?)
    && (forall op, other :: op in t.operations && other in t.operations && t.operations[op].task == t.operations[other].task ==> op == other)
  }

  /** Every replenishment row is the movement of some receipt, and every finished task has one. */
  ghost predicate RowsAccounted(t: Tables) {
    && (forall i :: 0 <= i < |t.stock.ledger| && t.stock.ledger[i].movementType.Reposicao? ==> HasReceipt(t, i))
    && (forall id :: id in t.tasks && t.tasks[id].status.Done? ==> IsFinished(t, id))
  }

  ghost predicate HasReceipt(t: Tables, i: nat) {
    exists op :: op in t.operations && t.operations[op].movement == i
  }

  ghost predicate IsFinished(t: Tables, id: Id) {
    exists op :: op in t.operations && t.operations[op].task == id
  }

  ghost predicate OpenTasksDiffer(t: Tables) {
    forall id, other ::
      && id in t.tasks && other in t.tasks && IsOpen(t.tasks[id].status) && IsOpen(t.tasks[other].status)
      && t.tasks[id].product == t.tasks[other].product && t.tasks[id].destination == t.tasks[other].destination
      ==> id == other
  }

  ghost predicate TablesOk(t: Tables) {
    ReceiptsOk(t) && RowsAccounted(t) && OpenTasksDiffer(t)
  }

  /** Receipts are never lost or changed, the ledger only grows, and finished tasks stay as they are. */
  ghost predicate Extends(t: Tables, t': Tables) {
    && (forall op :: op in t.operations ==> op in t'.operations && t'.operations[op] == t.operations[op])
    && t.stock.ledger <= t'.stock.ledger
    && (forall id :: id in t.tasks ==> id in t'.tasks && t'.tasks[id].(status := t.tasks[id].status) == t.tasks[id])
    && (forall id :: id in t.tasks && t.tasks[id].status.Done? ==> t'.tasks[id] == t.tasks[id])
  }

  lemma ExecutionExtends(t: Tables, op: Id, id: Id, scan: Scan)
    ensures Extends(t, Executed(t, op, id, scan).tables)
  {
  }

  lemma StepExtends(t: Tables, ev: Event)
    ensures Extends(t, Next(t, ev))
  {
    if ev.Executes? {
      ExecutionExtends(t, ev.op, ev.id, ev.scan);
    }
  }

  /** Only an execution stores a result: its own operation's, for its own task, exactly when it succeeds. */
  lemma OnlyExecutionsStore(t: Tables, ev: Event)
    ensures var t' := Next(t, ev);
            && (forall op :: op in t'.operations ==> op in t.operations || (ev.Executes? && op == ev.op && t'.operations[op].task == ev.id))
            && (ev.Executes? ==> (Executed(t, ev.op, ev.id, ev.scan).outcome.Success? <==> ev.op in t'.operations))
  {
  }

  lemma ReposicaoPosting(id: Id, task: Task)
    requires task.qty > 0
    ensures var p := PostingOf(ReposicaoMovement(id, task));
            && p.Success? && |p.value.rows| == 1
            && var row := p.value.rows[0];
            && row.movementType.Reposicao? && row.task == Some(id) && row.qty == task.qty
            && row.DebitLeg() == Some(Leg(Key(task.tenant, task.warehouse, task.product, task.batch, Some(task.origin), None), Available))
            && row.CreditLeg() == Some(Leg(Key(task.tenant, task.warehouse, task.product, task.batch, Some(task.destination), None), Available))
  {
  }

  /** Steps that post no replenishment row and neither finish nor touch finished tasks keep the accounts. */
  lemma AccountsPersist(t: Tables, t': Tables)
    requires ReceiptsOk(t) && RowsAccounted(t) && Extends(t, t') && t'.operations == t.operations
    requires forall id :: id in t'.tasks && t'.tasks[id].status.Done? ==> id in t.tasks && t.tasks[id].status.Done?
    requires forall i :: |t.stock.ledger| <= i < |t'.stock.ledger| ==> !t'.stock.ledger[i].movementType.Reposicao?
    ensures ReceiptsOk(t') && RowsAccounted(t')
  {
    forall op | op in t'.operations ensures IsMovementOf(t', t'.operations[op].movement, t'.operations[op]) {
      assert IsMovementOf(t, t.operations[op].movement, t.operations[op]);
    }
    forall i | 0 <= i < |t'.stock.ledger| && t'.stock.ledger[i].movementType.Reposicao? ensures HasReceipt(t', i) {
      assert i < |t.stock.ledger| && t'.stock.ledger[i] == t.stock.ledger[i];
      assert HasReceipt(t, i);
    }
    forall id | id in t'.tasks && t'.tasks[id].status.Done? ensures IsFinished(t', id) {
      assert IsFinished(t, id);
    }
  }

  predicate IsFirstExecution(t: Tables, op: Id, id: Id, scan: Scan) {
    op !in t.operations && Executed(t, op, id, scan).outcome.Success?
  }

  /** A first execution writes one row, one receipt and one finished task. */
  lemma FirstExecutionWrites(t: Tables, op: Id, id: Id, scan: Scan)
    requires IsFirstExecution(t, op, id, scan)
    ensures var t', n := Executed(t, op, id, scan).tables, |t.stock.ledger|;
            && id in t.tasks && Executable(t.tasks[id].status) && t'.tasks == t.tasks[id := t.tasks[id].(status := Done)]
            && t'.operations == t.operations[op := Receipt(id, n)]
            && |t'.stock.ledger| == n + 1 && t.stock.ledger <= t'.stock.ledger
            && IsMovementOf(t', n, Receipt(id, n))
  {
    ReposicaoPosting(id, t.tasks[id]);
  }

  lemma FirstExecutionKeepsReceipts(t: Tables, op: Id, id: Id, scan: Scan)
    requires ReceiptsOk(t) && IsFirstExecution(t, op, id, scan)
    ensures ReceiptsOk(Executed(t, op, id, scan).tables)
  {
    var t' := Executed(t, op, id, scan).tables;
    FirstExecutionWrites(t, op, id, scan);
    assert forall o :: o in t.operations ==> t.operations[o].task != id;
    forall o | o in t'.operations
      ensures IsMovementOf(t', t'.operations[o].movement, t'.operations[o]) && t'.tasks[t'.operations[o].task].status.Done?
    {
      if o != op {
        assert IsMovementOf(t, t.operations[o].movement, t.operations[o]);
      }
    }
  }

  lemma FirstExecutionKeepsRows(t: Tables, op: Id, id: Id, scan: Scan)
    requires RowsAccounted(t) && IsFirstExecution(t, op, id, scan)
    ensures RowsAccounted(Executed(t, op, id, scan).tables)
  {
    var t' := Executed(t, op, id, scan).tables;
    FirstExecutionWrites(t, op, id, scan);
    forall i | 0 <= i < |t'.stock.ledger| && t'.stock.ledger[i].movementType.Reposicao? ensures HasReceipt(t', i) {
      if i < |t.stock.ledger| {
        assert HasReceipt(t, i);
        var o :| o in t.operations && t.operations[o].movement == i;
        assert o in t'.operations && t'.operations[o].movement == i;
      } else {
        assert t'.operations[op].movement == i;
      }
    }
    forall k | k in t'.tasks && t'.tasks[k].status.Done? ensures IsFinished(t', k) {
      if k == id {
        assert t'.operations[op].task == k;
      } else {
        assert IsFinished(t, k);
        var o :| o in t.operations && t.operations[o].task == k;
        assert o in t'.operations && t'.operations[o].task == k;
      }
    }
  }

  lemma OpenTasksStayDifferent(t: Tables, ev: Event)
    requires OpenTasksDiffer(t)
    ensures OpenTasksDiffer(Next(t, ev))
  {
  }

  /** Every other step finishes nothing and posts no replenishment row. */
  lemma OtherStepsAreQuiet(t: Tables, ev: Event)
    requires ev.Executes? ==> !IsFirstExecution(t, ev.op, ev.id, ev.scan)
    ensures var t' := Next(t, ev);
            && t'.operations == t.operations
            && (forall id :: id in t'.tasks && t'.tasks[id].status.Done? ==> id in t.tasks && t.tasks[id].status.Done?)
            && (forall i :: |t.stock.ledger| <= i < |t'.stock.ledger| ==> !t'.stock.ledger[i].movementType.Reposicao?)
  {
    if Enabled(t, ev) && ev.OtherMovement? && Applied(t.stock, ev.movement).Success? {
      assert forall r :: r in PostingOf(ev.movement).value.rows ==> r.movementType == ev.movement.movementType;
    }
  }

  lemma StepKeepsTables(t: Tables, ev: Event)
    requires TablesOk(t)
    ensures TablesOk(Next(t, ev))
  {
    OpenTasksStayDifferent(t, ev);
    if ev.Executes? && IsFirstExecution(t, ev.op, ev.id, ev.scan) {
      FirstExecutionKeepsReceipts(t, ev.op, ev.id, ev.scan);
      FirstExecutionKeepsRows(t, ev.op, ev.id, ev.scan);
    } else {
      StepExtends(t, ev);
      OtherStepsAreQuiet(t, ev);
      AccountsPersist(t, Next(t, ev));
    }
  }

  /** No operation and no task ever moves stock twice. */
  lemma AtMostOneMovement(t: Tables, i: nat, j: nat)
    requires TablesOk(t) && i < |t.stock.ledger| && j < |t.stock.ledger| && t.stock.ledger[i].movementType.Reposicao?
    requires t.stock.ledger[j].movementType.Reposicao? && t.stock.ledger[i].task == t.stock.ledger[j].task
    ensures i == j
  {
    assert HasReceipt(t, i) && HasReceipt(t, j);
    var op :| op in t.operations && t.operations[op].movement == i;
    var other :| other in t.operations && t.operations[other].movement == j;
    assert IsMovementOf(t, i, t.operations[op]) && IsMovementOf(t, j, t.operations[other]);
  }
}
