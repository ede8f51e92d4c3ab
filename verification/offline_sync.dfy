/** Offline synchronisation: the server that classifies each operation, and the device that queues and resends them. */
module OfflineSync {
  import opened Common
  import opened Replenishment
  import opened StockLedger

  datatype Decision = Aplicada | DescartadaDuplicidade | RejeitadaTarefaInvalida | RejeitadaRegra

  /** A confirmed replenishment. Its identifier is generated once, on the device. */
  datatype Operation = Operation(id: Id, task: Option<Id>, scan: Scan)

  datatype OpResult = OpResult(id: Id, decision: Decision)

  // ---- The server --------------------------------------------------------------------------

  datatype ServerStatus = Sending | Decided(decision: Decision)

  /** The status seen before the call, or the decision when there is nothing to call. */
  function Peeked(t: Tables, op: Operation): Result<TaskStatus, Decision> {
    if op.task.None? || op.task.value !in t.tasks || t.tasks[op.task.value].status.Cancelled? then Failure(RejeitadaTarefaInvalida)
    else Success(t.tasks[op.task.value].status)
  }

  datatype Dispatch = Dispatch(tables: Tables, decision: Decision)

  /** The call itself, classified by the status that was seen before it. */
  function Dispatched(t: Tables, op: Operation, seen: TaskStatus): Dispatch
    requires op.task.Some?
  {
    var e := Executed(t, op.id, op.task.value, op.scan);
    Dispatch(e.tables, if e.outcome.Success? then Aplicada else if seen.Done? then DescartadaDuplicidade else RejeitadaRegra)
  }

  function Processed(t: Tables, op: Operation): Dispatch {
    match Peeked(t, op)
    case Failure(decision) => Dispatch(t, decision)
    case Success(seen) => Dispatched(t, op, seen)
  }

  datatype Batch = Batch(tables: Tables, results: seq<OpResult>)

  /** The whole queue, one operation at a time, in the order it was recorded. */
  function ProcessedAll(t: Tables, ops: seq<Operation>): (b: Batch)
    ensures |b.results| == |ops|
  {
    if ops == [] then Batch(t, [])
    else
      var before := ProcessedAll(t, ops[..|ops| - 1]);
      var last := Processed(before.tables, ops[|ops| - 1]);
      Batch(last.tables, before.results + [OpResult(ops[|ops| - 1].id, last.decision)])
  }

  /** What an exception about an operation names: its task, or itself. */
  function EntityOf(op: Operation): Id {
    if op.task.Some? then op.task.value else op.id
  }

  /** The entities of the exceptions a batch opens: one for each operation rejected by a rule, in order. */
  function Raised(ops: seq<Operation>, results: seq<OpResult>): seq<Id>
    requires |results| == |ops|
  {
    if ops == [] then []
    else
      var n := |ops| - 1;
      Raised(ops[..n], results[..n]) + (if results[n].decision.RejeitadaRegra? then [EntityOf(ops[n])] else [])
  }

  /** The batch was processed from `t` to `u`, and opened these exceptions. */
  ghost predicate BatchDone(t: Tables, ops: seq<Operation>, u: Tables, results: seq<OpResult>, raised: seq<Id>) {
    ProcessedAll(t, ops) == Batch(u, results) && raised == Raised(ops, results)
  }

  lemma BatchGoesOn(
    t: Tables, ops: seq<Operation>, u: Tables, results: seq<OpResult>, raised: seq<Id>, op: Operation, u': Tables, r: OpResult)
    requires BatchDone(t, ops, u, results, raised) && Processed(u, op) == Dispatch(u', r.decision) && r.id == op.id
    ensures BatchDone(t, ops + [op], u', results + [r], raised + (if r.decision.RejeitadaRegra? then [EntityOf(op)] else []))
  {
    assert (ops + [op])[..|ops|] == ops && (results + [r])[..|ops|] == results;
  }

  class OfflineSyncService {
    const executor: ReplenishmentService
    var syncOperations: map<Id, ServerStatus>
    /** The entities of the exceptions opened so far, for operations rejected by a rule. */
    var rejections: seq<Id>

    constructor (executor: ReplenishmentService)
      ensures this.executor == executor && syncOperations == map[] && rejections == []
    {
      this.executor := executor;
      syncOperations := map[];
      rejections := [];
    }

    method ProcessOne(op: Operation) returns (r: OpResult)
      modifies this, executor, executor.stock
      ensures Processed(old(executor.State()), op) == Dispatch(executor.State(), r.decision) && r.id == op.id
      ensures syncOperations == old(syncOperations)[op.id := Decided(r.decision)]
      ensures rejections == old(rejections) +
        (if r.decision == RejeitadaRegra then [if op.task.Some? then op.task.value else op.id] else [])
    {
      syncOperations := syncOperations[op.id := Sending];
      var decision := ClassifyAndDispatch(op);
      syncOperations := syncOperations[op.id := Decided(decision)];
      if decision.RejeitadaRegra? {
        rejections := rejections + [EntityOf(op)];
      }
      return OpResult(op.id, decision);
    }

    method ClassifyAndDispatch(op: Operation) returns (decision: Decision)
      modifies executor, executor.stock
      ensures Processed(old(executor.State()), op) == Dispatch(executor.State(), decision)
    {
      if op.task.None? || op.task.value !in executor.tasks {
        return RejeitadaTarefaInvalida;
      }
      var seen := executor.tasks[op.task.value].status;
      if seen.Cancelled? {
        return RejeitadaTarefaInvalida;
      }
      var outcome := executor.ExecuteTask(op.id, op.task.value, op.scan);
      if outcome.Success? {
        return Aplicada;
      }
      return if seen.Done? then DescartadaDuplicidade else RejeitadaRegra;
    }

    method Sincronizar(ops: seq<Operation>) returns (results: seq<OpResult>)
      modifies this, executor, executor.stock
      ensures ProcessedAll(old(executor.State()), ops) == Batch(executor.State(), results)
      ensures rejections == old(rejections) + Raised(ops, results)
      ensures |results| == |ops| && forall i :: 0 <= i < |ops| ==> results[i].id == ops[i].id
    {
      results := [];
      ghost var t, raised := executor.State(), [];
      for i := 0 to |ops|
        invariant BatchDone(t, ops[..i], executor.State(), results, raised)
        invariant rejections == old(rejections) + raised
        invariant |results| == i && forall j :: 0 <= j < i ==> results[j].id == ops[j].id
      {
        ghost var u := executor.State();
        var result := ProcessOne(ops[i]);
        BatchGoesOn(t, ops[..i], u, results, raised, ops[i], executor.State(), result);
        assert ops[..i + 1] == ops[..i] + [ops[i]];
        results := results + [result];
        raised := raised + (if result.decision.RejeitadaRegra? then [EntityOf(ops[i])] else []);
      }
      assert ops[..|ops|] == ops;
    }
  }

  // ---- The device --------------------------------------------------------------------------

  datatype LocalStatus = LocalPendente | Enviando | Resolved(decision: Decision)

  /** A queue record. The queue is kept in recording order. */
  datatype Queued = Queued(op: Operation, status: LocalStatus)

  datatype TaskLocalStatus = TaskPending | TaskInProgress | TaskQueued | TaskDone

  datatype LocalTask = LocalTask(status: TaskLocalStatus, inProgress: bool, queuedOperation: Option<Id>)

  datatype Device = Device(queue: seq<Queued>, tasks: map<Id, LocalTask>)

  predicate InQueue(queue: seq<Queued>, id: Id) {
    exists k :: 0 <= k < |queue| && queue[k].op.id == id
  }

  function SetStatus(queue: seq<Queued>, id: Id, status: LocalStatus): (r: seq<Queued>)
    ensures |r| == |queue|
    ensures forall k :: 0 <= k < |r| ==> r[k] == if queue[k].op.id == id then queue[k].(status := status) else queue[k]
  {
    seq(|queue|, k requires 0 <= k < |queue| => if queue[k].op.id == id then queue[k].(status := status) else queue[k])
  }

  predicate Among(ops: seq<Operation>, id: Id) {
    exists j :: 0 <= j < |ops| && ops[j].id == id
  }

  function SetAll(queue: seq<Queued>, ops: seq<Operation>, status: LocalStatus): (r: seq<Queued>)
    ensures |r| == |queue|
    ensures forall k :: 0 <= k < |r| ==> r[k] == if Among(ops, queue[k].op.id) then queue[k].(status := status) else queue[k]
  {
    seq(|queue|, k requires 0 <= k < |queue| => if Among(ops, queue[k].op.id) then queue[k].(status := status) else queue[k])
  }

  /** The operations waiting to be sent, first recorded first. */
  function Waiting(queue: seq<Queued>): seq<Operation> {
    if queue == [] then []
    else Waiting(queue[..|queue| - 1]) + (if queue[|queue| - 1].status.LocalPendente? then [queue[|queue| - 1].op] else [])
  }

  function WithTask(tasks: map<Id, LocalTask>, id: Id, status: TaskLocalStatus): map<Id, LocalTask> {
    if id !in tasks then tasks
    else tasks[id := tasks[id].(status := status, queuedOperation := if status.TaskPending? then None else tasks[id].queuedOperation)]
  }

  /** Saving or clearing the progress of a known task. */
  function WithProgress(tasks: map<Id, LocalTask>, id: Id, inProgress: bool): map<Id, LocalTask> {
    if id !in tasks then tasks
    else tasks[id := tasks[id].(inProgress := inProgress, status := if inProgress then TaskInProgress else TaskPending)]
  }

  /** What the device offers for execution. */
  function ExecutableTasks(tasks: map<Id, LocalTask>): set<Id> {
    set id | id in tasks && (tasks[id].status.TaskPending? || tasks[id].status.TaskInProgress?)
  }

  function Confirmed(d: Device, op: Operation): Device {
    Device(d.queue + [Queued(op, LocalPendente)],
           if op.task.None? || op.task.value !in d.tasks then d.tasks
           else d.tasks[op.task.value := LocalTask(TaskQueued, false, Some(op.id))])
  }

  /** A pulled package adds tasks and never touches what the device knows of the others. */
  function Merged(tasks: map<Id, LocalTask>, pulled: seq<Id>): map<Id, LocalTask> {
    if pulled == [] then tasks
    else
      var before := Merged(tasks, pulled[..|pulled| - 1]);
      var id := pulled[|pulled| - 1];
      if id in before then before else before[id := LocalTask(TaskPending, false, None)]
  }

  function TaskStatusAfter(decision: Decision): TaskLocalStatus {
    if decision.Aplicada? || decision.DescartadaDuplicidade? then TaskDone else TaskPending
  }

  /** The position of an operation among those sent, or their number when it is not there. */
  function PositionOf(sent: seq<Operation>, id: Id): (j: nat)
    ensures j <= |sent| && (j < |sent| ==> sent[j].id == id) && forall i :: 0 <= i < j ==> sent[i].id != id
  {
    if sent == [] then 0 else if sent[0].id == id then 0 else 1 + PositionOf(sent[1..], id)
  }

  /** One result of a batch, applied to the queue and to the task of its operation. */
  function ResultApplied(d: Device, sent: seq<Operation>, r: OpResult): Device {
    var j := PositionOf(sent, r.id);
    Device(SetStatus(d.queue, r.id, Resolved(r.decision)),
           if j == |sent| || sent[j].task.None? then d.tasks
           else WithTask(d.tasks, sent[j].task.value, TaskStatusAfter(r.decision)))
  }

  function ResultsApplied(d: Device, sent: seq<Operation>, results: seq<OpResult>): Device {
    if results == [] then d
    else ResultApplied(ResultsApplied(d, sent, results[..|results| - 1]), sent, results[|results| - 1])
  }

  class FieldDevice {
    var queue: seq<Queued>
    var tasks: map<Id, LocalTask>
    var syncing: bool

    constructor ()
      ensures State() == Device([], map[]) && !syncing
    {
      queue, tasks, syncing := [], map[], false;
    }

    function State(): Device
      reads this
    {
      Device(queue, tasks)
    }

    /** Records the operation, and only then marks its task; sending comes later. */
    method ConfirmTask(op: Operation)
      requires !InQueue(queue, op.id)
      modifies this`queue, this`tasks
      ensures State() == Confirmed(old(State()), op)
      ensures queue == old(queue) + [Queued(op, LocalPendente)]
      ensures tasks ==
        if op.task.Some? && op.task.value in old(tasks)
        then old(tasks)[op.task.value := LocalTask(TaskQueued, false, Some(op.id))] else old(tasks)
    {
      queue := queue + [Queued(op, LocalPendente)];
      if op.task.Some? && op.task.value in tasks {
        tasks := tasks[op.task.value := LocalTask(TaskQueued, false, Some(op.id))];
      }
    }

    method SaveShiftPackage(pulled: seq<Id>)
      modifies this`tasks
      ensures tasks == Merged(old(tasks), pulled)
      ensures forall id :: id in tasks <==> id in old(tasks) || id in pulled
      ensures forall id :: id in tasks ==>
        tasks[id] == if id in old(tasks) then old(tasks)[id] else LocalTask(TaskPending, false, None)
    {
      for i := 0 to |pulled|
        invariant tasks == Merged(old(tasks), pulled[..i])
        invariant forall id :: id in tasks <==> id in old(tasks) || id in pulled[..i]
        invariant forall id :: id in tasks ==>
          tasks[id] == if id in old(tasks) then old(tasks)[id] else LocalTask(TaskPending, false, None)
      {
        assert pulled[..i + 1][..i] == pulled[..i];
        if pulled[i] !in tasks {
          tasks := tasks[pulled[i] := LocalTask(TaskPending, false, None)];
        }
      }
      assert pulled[..|pulled|] == pulled;
    }

    /**
     A known task is offered for execution again, whatever its status was, queued and closed included;
     it keeps its queued operation, and no other task changes.
     */
    method UpdateTaskProgress(id: Id, inProgress: bool)
      modifies this`tasks
      ensures tasks == WithProgress(old(tasks), id, inProgress)
      ensures ExecutableTasks(tasks) == ExecutableTasks(old(tasks)) + (if id in old(tasks) then {id} else {})
      ensures tasks.Keys == old(tasks).Keys && forall other :: other in tasks ==>
        tasks[other] ==
          if other == id then LocalTask(if inProgress then TaskInProgress else TaskPending, inProgress, old(tasks)[id].queuedOperation)
          else old(tasks)[other]
    {
      if id in tasks {
        tasks := tasks[id := tasks[id].(inProgress := inProgress, status := if inProgress then TaskInProgress else TaskPending)];
      }
    }

    method SetTaskLocalStatus(id: Id, status: TaskLocalStatus)
      modifies this`tasks
      ensures tasks == WithTask(old(tasks), id, status)
      ensures tasks.Keys == old(tasks).Keys && forall other :: other in tasks ==>
        tasks[other] ==
          if other == id
          then LocalTask(status, old(tasks)[id].inProgress, if status == TaskPending then None else old(tasks)[id].queuedOperation)
          else old(tasks)[other]
    {
      if id in tasks {
        var task := tasks[id].(status := status);
        if status.TaskPending? {
          task := task.(queuedOperation := None);
        }
        tasks := tasks[id := task];
      }
    }

    /** Marks each operation in turn, as sending or as pending again. */
    method MarkAll(ops: seq<Operation>, status: LocalStatus)
      modifies this`queue
      ensures queue == SetAll(old(queue), ops, status)
    {
      for i := 0 to |ops|
        invariant queue == SetAll(old(queue), ops[..i], status)
      {
        ghost var before := queue;
        queue := SetStatus(queue, ops[i].id, status);
        MarkOneMore(old(queue), ops, i, status);
      }
      assert ops[..|ops|] == ops;
    }

    /** Takes everything that waits, in recording order, unless a run is under way. */
    method BeginSync(online: bool) returns (sent: Option<seq<Operation>>)
      modifies this`queue, this`syncing
      ensures sent == if old(syncing) || !online || Waiting(old(queue)) == [] then None else Some(Waiting(old(queue)))
      ensures syncing == (old(syncing) || sent.Some?)
      ensures queue == if sent.Some? then SetAll(old(queue), sent.value, Enviando) else old(queue)
    {
      if syncing || !online {
        return None;
      }
      var pending: seq<Operation> := [];
      for i := 0 to |queue|
        invariant pending == Waiting(queue[..i])
      {
        assert queue[..i + 1][..i] == queue[..i];
        if queue[i].status.LocalPendente? {
          pending := pending + [queue[i].op];
        }
      }
      assert queue[..|queue|] == queue;
      if pending == [] {
        return None;
      }
      syncing := true;
      MarkAll(pending, Enviando);
      return Some(pending);
    }

    /** The answer of the server, or `None` when the call failed in whatever way. */
    method EndSync(sent: seq<Operation>, answer: Option<seq<OpResult>>)
      requires syncing
      modifies this
      ensures !syncing
      ensures State() ==
        if answer.None? then old(State()).(queue := SetAll(old(queue), sent, LocalPendente))
        else ResultsApplied(old(State()), sent, answer.value)
    {
      if answer.None? {
        MarkAll(sent, LocalPendente);
      } else {
        var results := answer.value;
        for i := 0 to |results|
          invariant State() == ResultsApplied(old(State()), sent, results[..i])
        {
          assert results[..i + 1][..i] == results[..i];
          queue := SetStatus(queue, results[i].id, Resolved(results[i].decision));
          var j := PositionOf(sent, results[i].id);
          if j < |sent| && sent[j].task.Some? {
            SetTaskLocalStatus(sent[j].task.value, TaskStatusAfter(results[i].decision));
          }
        }
        assert results[..|results|] == results;
      }
      syncing := false;
    }
  }

  function OpsOf(queue: seq<Queued>): seq<Operation> {
    seq(|queue|, i requires 0 <= i < |queue| => queue[i].op)
  }

  function Awaits(): Queued -> bool {
    (q: Queued) => q.status == LocalPendente
  }

  /** What waits is the records that are pending locally, all of them and in their order. */
  lemma {:induction false} WaitingExactly(queue: seq<Queued>)
    ensures Waiting(queue) == OpsOf(Filter(Awaits(), queue))
  {
    if queue != [] {
      var n := |queue| - 1;
      WaitingExactly(queue[..n]);
      assert queue == queue[..n] + [queue[n]];
      FilterConcat(Awaits(), queue[..n], [queue[n]]);
      assert Filter(Awaits(), [queue[n]]) == if Awaits()(queue[n]) then [queue[n]] else [];
    }
  }

  /** The answers of a batch resolve exactly the records they name; the last answer for a record counts. */
  lemma {:induction false} AnswersResolve(d: Device, sent: seq<Operation>, results: seq<OpResult>, k: nat)
    requires k < |d.queue|
    ensures var q := ResultsApplied(d, sent, results).queue;
            && |q| == |d.queue| && q[k].op == d.queue[k].op
            && ((forall j :: 0 <= j < |results| ==> results[j].id != q[k].op.id) ==> q[k] == d.queue[k])
            && (forall j :: 0 <= j < |results| && results[j].id == q[k].op.id
                  && (forall i :: j < i < |results| ==> results[i].id != q[k].op.id)
                  ==> q[k].status == Resolved(results[j].decision))
  {
    if results != [] {
      var n := |results| - 1;
      AnswersResolve(d, sent, results[..n], k);
      assert forall j :: 0 <= j < n ==> results[..n][j] == results[j];
    }
  }

  /** The answer is for the operation that was sent for this task. */
  ghost predicate Answers(sent: seq<Operation>, r: OpResult, task: Id) {
    exists j :: 0 <= j < |sent| && sent[j].id == r.id && sent[j].task == Some(task) && forall i :: 0 <= i < j ==> sent[i].id != r.id
  }

  predicate Closes(r: OpResult) {
    r.decision == Aplicada || r.decision == DescartadaDuplicidade
  }

  ghost predicate IsLastAnswer(sent: seq<Operation>, results: seq<OpResult>, j: nat, task: Id) {
    j < |results| && Answers(sent, results[j], task) && forall i :: j < i < |results| ==> !Answers(sent, results[i], task)
  }

  ghost predicate NoAnswer(sent: seq<Operation>, results: seq<OpResult>, task: Id) {
    forall j :: 0 <= j < |results| ==> !Answers(sent, results[j], task)
  }

  ghost predicate AllClose(sent: seq<Operation>, results: seq<OpResult>, task: Id) {
    forall j :: 0 <= j < |results| && Answers(sent, results[j], task) ==> Closes(results[j])
  }

  lemma OneMoreAnswer(sent: seq<Operation>, results: seq<OpResult>, r: OpResult, task: Id)
    ensures NoAnswer(sent, results + [r], task) <==> NoAnswer(sent, results, task) && !Answers(sent, r, task)
    ensures AllClose(sent, results + [r], task) <==> AllClose(sent, results, task) && (Answers(sent, r, task) ==> Closes(r))
    ensures forall j: nat :: IsLastAnswer(sent, results + [r], j, task) <==>
              if Answers(sent, r, task) then j == |results| else IsLastAnswer(sent, results, j, task)
  {
    assert (results + [r])[|results|] == r;
    assert forall j :: 0 <= j < |results| ==> (results + [r])[j] == results[j];
  }

  /** The last answer about a task closes it, when applied or a duplicate, and otherwise makes it pending without an operation. */
  lemma {:induction false} AnswersSettle(d: Device, sent: seq<Operation>, results: seq<OpResult>, task: Id)
    requires task in d.tasks
    ensures var ts := ResultsApplied(d, sent, results).tasks;
            && ts.Keys == d.tasks.Keys && ts[task].inProgress == d.tasks[task].inProgress
            && (NoAnswer(sent, results, task) ==> ts[task] == d.tasks[task])
            && (forall j: nat :: IsLastAnswer(sent, results, j, task) ==>
                  ts[task].status == if Closes(results[j]) then TaskDone else TaskPending)
            && ts[task].queuedOperation == (if AllClose(sent, results, task) then d.tasks[task].queuedOperation else None)
  {
    if results != [] {
      var n := |results| - 1;
      AnswersSettle(d, sent, results[..n], task);
      assert results == results[..n] + [results[n]];
      OneMoreAnswer(sent, results[..n], results[n], task);
      OneAnswerSettles(ResultsApplied(d, sent, results[..n]), sent, results[n], task);
    }
  }

  lemma OneAnswerSettles(d: Device, sent: seq<Operation>, r: OpResult, task: Id)
    requires task in d.tasks
    ensures var ts := ResultApplied(d, sent, r).tasks;
            && ts.Keys == d.tasks.Keys
            && ts[task] ==
                 if !Answers(sent, r, task) then d.tasks[task]
                 else if Closes(r) then d.tasks[task].(status := TaskDone)
                 else d.tasks[task].(status := TaskPending, queuedOperation := None)
  {
    var j := PositionOf(sent, r.id);
    if j < |sent| && sent[j].task == Some(task) {
      assert Answers(sent, r, task);
    }
  }

  lemma MarkOneMore(queue: seq<Queued>, ops: seq<Operation>, i: nat, status: LocalStatus)
    requires i < |ops|
    ensures SetAll(queue, ops[..i + 1], status) == SetStatus(SetAll(queue, ops[..i], status), ops[i].id, status)
  {
    forall k | 0 <= k < |queue|
      ensures Among(ops[..i + 1], queue[k].op.id) <==> Among(ops[..i], queue[k].op.id) || queue[k].op.id == ops[i].id
    {
      if Among(ops[..i + 1], queue[k].op.id) {
        var j :| 0 <= j < i + 1 && ops[..i + 1][j].id == queue[k].op.id;
        assert j < i ==> ops[..i][j] == ops[j];
      }
      if Among(ops[..i], queue[k].op.id) {
        var j :| 0 <= j < i && ops[..i][j].id == queue[k].op.id;
        assert ops[..i + 1][j] == ops[j];
      }
      if queue[k].op.id == ops[i].id {
        assert ops[..i + 1][i] == ops[i];
      }
    }
  }

  // ---- The four decisions ------------------------------------------------------------------

  /**
   An operation is invalid exactly when its task is unknown or cancelled, and then nothing is executed. Otherwise it
   is executed: applied when that succeeds, and when it does not, a duplicate if the task was done and else rejected.
   */
  lemma ProcessedExactly(t: Tables, op: Operation)
    ensures var d := Processed(t, op);
            if op.task.None? || op.task.value !in t.tasks || t.tasks[op.task.value].status == Cancelled then
              d == Dispatch(t, RejeitadaTarefaInvalida)
            else
              var e := Executed(t, op.id, op.task.value, op.scan);
              && d.tables == e.tables
              && (d.decision == Aplicada <==> e.outcome.Success?)
              && (d.decision == DescartadaDuplicidade <==> e.outcome.Failure? && t.tasks[op.task.value].status == Done)
              && (d.decision == RejeitadaRegra <==> e.outcome.Failure? && t.tasks[op.task.value].status != Done)
  {
  }

  /** Sending an applied operation again is always applied again, and changes nothing. */
  lemma ResendIsApplied(t: Tables, op: Operation, seen: TaskStatus)
    requires TablesOk(t) && op.id in t.operations && op.task == Some(t.operations[op.id].task)
    ensures Peeked(t, op) == Success(Done) && Dispatched(t, op, seen) == Dispatch(t, Aplicada)
  {
    assert IsMovementOf(t, t.operations[op.id].movement, t.operations[op.id]);
  }

  /** Another operation on a finished task is discarded as a duplicate, however much happens between the look and the call. */
  lemma SecondOperationIsDiscarded(t: Tables, t': Tables, op: Operation)
    requires op.task.Some? && op.task.value in t.tasks && t.tasks[op.task.value].status.Done?
    requires Extends(t, t') && op.id !in t'.operations
    ensures Peeked(t, op) == Success(Done) && Dispatched(t', op, Done) == Dispatch(t', DescartadaDuplicidade)
  {
  }

  /** A decision that is not APLICADA moves no stock and stores no result. */
  lemma OnlyAppliedMovesStock(t: Tables, op: Operation, seen: TaskStatus)
    requires op.task.Some?
    ensures var d := Dispatched(t, op, seen);
            && (d.decision.Aplicada? <==> op.id in d.tables.operations)
            && (!d.decision.Aplicada? ==> d.tables.stock == t.stock && d.tables.operations == t.operations)
  {
  }
}
