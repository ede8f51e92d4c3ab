/** The synchronisation protocol as one step machine: device, lossy network, server, and everyone else. */
module OfflineSyncRuns {
  import opened Common
  import opened Replenishment
  import opened StockLedger
  import opened OfflineSync

  /** A batch under way: its operations, what has been decided of them, and the status seen of the next one's task. */
  datatype Request = Request(ops: seq<Operation>, results: seq<OpResult>, seen: Option<TaskStatus>)

  /** The synchronisation that the device awaits. `answer` is what remains to be applied of it. */
  datatype SyncRun = SyncRun(sent: seq<Operation>, request: Id, answer: Option<seq<OpResult>>)

  /** `wire` holds the batches sent and not answered; `answers` the answers not yet received. */
  datatype World = World(
    tables: Tables, device: Device, run: Option<SyncRun>, wire: map<Id, Request>, answers: map<Id, seq<OpResult>>)

  datatype Step =
    | Confirm(op: Operation)
    | Progress(task: Id, inProgress: bool)
    | Pull(tasks: seq<Id>)
    | Begin(request: Id)
    /** The device gives up waiting; the batch may still be anywhere. */
    | Fail
    /** A request or its answer is lost, or the server dies half way through a batch. */
    | Lose(request: Id)
    | Look(request: Id)
    | Call(request: Id)
    | Answer(request: Id)
    | Receive
    | ApplyOne
    | Finish
    /** The page is reloaded: the queue survives, the run does not. */
    | Reload
    | Elsewhere(event: Event)

  predicate Enabled(w: World, s: Step) {
    match s
    case Confirm(op) => !InQueue(w.device.queue, op.id) && op.id !in w.tables.operations
    case Progress(task, _) => task in w.device.tasks
    case Pull(_) => true
    case Begin(request) => w.run.None? && Waiting(w.device.queue) != [] && request !in w.wire && request !in w.answers
    case Fail => w.run.Some? && w.run.value.answer.None?
    case Lose(request) => true
    case Look(request) =>
      request in w.wire && w.wire[request].seen.None? && |w.wire[request].results| < |w.wire[request].ops|
    case Call(request) => request in w.wire && w.wire[request].seen.Some?
    case Answer(request) => request in w.wire && |w.wire[request].results| == |w.wire[request].ops|
    case Receive => w.run.Some? && w.run.value.answer.None? && w.run.value.request in w.answers
    case ApplyOne => w.run.Some? && w.run.value.answer.Some? && w.run.value.answer.value != []
    case Finish => w.run.Some? && w.run.value.answer == Some([])
    case Reload => true
    // Operation identifiers are generated on one device and used nowhere else.
    case Elsewhere(event) => event.Executes? ==> !InQueue(w.device.queue, event.op)
  }

  /** The operation a batch is at. */
  function Current(r: Request): Operation
    requires |r.results| < |r.ops|
  {
    r.ops[|r.results|]
  }

  function WithResult(r: Request, decision: Decision): Request
    requires |r.results| < |r.ops|
  {
    Request(r.ops, r.results + [OpResult(Current(r).id, decision)], None)
  }

  function Looked(w: World, request: Id): World
    requires Enabled(w, Look(request))
  {
    var r := w.wire[request];
    match Peeked(w.tables, Current(r))
    case Failure(decision) => w.(wire := w.wire[request := WithResult(r, decision)])
    case Success(seen) => w.(wire := w.wire[request := r.(seen := Some(seen))])
  }

  function Called(w: World, request: Id): World
    requires Enabled(w, Call(request))
  {
    var r := w.wire[request];
    if |r.results| < |r.ops| && Current(r).task.Some? then
      var d := Dispatched(w.tables, Current(r), r.seen.value);
      w.(tables := d.tables, wire := w.wire[request := WithResult(r, d.decision)])
    else w
  }

  function Next(w: World, s: Step): World {
    if !Enabled(w, s) then w
    else
      match s
      case Confirm(op) => w.(device := Confirmed(w.device, op))
      case Progress(task, inProgress) =>
        w.(device := w.device.(tasks := WithProgress(w.device.tasks, task, inProgress)))
      case Pull(tasks) => w.(device := w.device.(tasks := Merged(w.device.tasks, tasks)))
      case Begin(request) =>
        var sent := Waiting(w.device.queue);
        w.(device := w.device.(queue := SetAll(w.device.queue, sent, Enviando)),
           run := Some(SyncRun(sent, request, None)), wire := w.wire[request := Request(sent, [], None)])
      case Fail =>
        w.(device := w.device.(queue := SetAll(w.device.queue, w.run.value.sent, LocalPendente)), run := None)
      case Lose(request) => w.(wire := w.wire - {request}, answers := w.answers - {request})
      case Look(request) => Looked(w, request)
      case Call(request) => Called(w, request)
      case Answer(request) => w.(wire := w.wire - {request}, answers := w.answers[request := w.wire[request].results])
      case Receive =>
        w.(run := Some(w.run.value.(answer := Some(w.answers[w.run.value.request]))), answers := w.answers - {w.run.value.request})
      case ApplyOne =>
        w.(device := ResultApplied(w.device, w.run.value.sent, w.run.value.answer.value[0]),
           run := Some(w.run.value.(answer := Some(w.run.value.answer.value[1..]))))
      case Finish => w.(run := None)
      case Reload => w.(run := None)
      case Elsewhere(event) => w.(tables := Replenishment.Next(w.tables, event))
  }

  const START := World(Tables(map[], map[], EMPTY_STOCK), Device([], map[]), None, map[], map[])

  function Run(steps: seq<Step>): World {
    if steps == [] then START else Next(Run(steps[..|steps| - 1]), steps[|steps| - 1])
  }

  // ---- What every step keeps: the server side ----------------------------------------------

  /** A decision that the tables bear out: applied operations have their receipt, duplicates a finished task. */
  predicate BorneOut(t: Tables, op: Operation, decision: Decision) {
    match decision
    case Aplicada => op.id in t.operations && op.task == Some(t.operations[op.id].task)
    case DescartadaDuplicidade => op.task.Some? && op.task.value in t.tasks && t.tasks[op.task.value].status.Done?
    case _ => true
  }

  predicate DistinctQueue(queue: seq<Queued>) {
    forall k, j :: 0 <= k < j < |queue| ==> queue[k].op.id != queue[j].op.id
  }

  predicate ReceiptsFit(t: Tables, queue: seq<Queued>) {
    forall k :: 0 <= k < |queue| && queue[k].op.id in t.operations ==> queue[k].op.task == Some(t.operations[queue[k].op.id].task)
  }

  predicate ResolvedBorneOut(t: Tables, queue: seq<Queued>) {
    forall k :: 0 <= k < |queue| && queue[k].status.Resolved? ==> BorneOut(t, queue[k].op, queue[k].status.decision)
  }

  ghost predicate QueueOk(w: World) {
    DistinctQueue(w.device.queue) && ReceiptsFit(w.tables, w.device.queue) && ResolvedBorneOut(w.tables, w.device.queue)
  }

  predicate Recorded(queue: seq<Queued>, op: Operation) {
    exists k :: 0 <= k < |queue| && queue[k].op == op
  }

  predicate AllRecorded(queue: seq<Queued>, ops: seq<Operation>) {
    forall j :: 0 <= j < |ops| ==> Recorded(queue, ops[j])
  }

  /** Results answer the first operations sent, one by one and in order, each borne out. */
  predicate ResultsOk(t: Tables, ops: seq<Operation>, results: seq<OpResult>) {
    && |results| <= |ops|
    && forall j :: 0 <= j < |results| ==> results[j].id == ops[j].id && BorneOut(t, ops[j], results[j].decision)
  }

  predicate RequestOk(t: Tables, queue: seq<Queued>, r: Request) {
    && AllRecorded(queue, r.ops) && ResultsOk(t, r.ops, r.results)
    && (r.seen.Some? ==>
          && |r.results| < |r.ops| && Current(r).task.Some?
          && (r.seen.value.Done? ==> BorneOut(t, Current(r), DescartadaDuplicidade)))
  }

  ghost predicate WireOk(w: World) {
    forall r :: r in w.wire ==> RequestOk(w.tables, w.device.queue, w.wire[r])
  }

  /** A task closed on the device is finished on the server. */
  predicate ClosedTasksDone(t: Tables, tasks: map<Id, LocalTask>) {
    forall id :: id in tasks && tasks[id].status.TaskDone? ==> id in t.tasks && t.tasks[id].status.Done?
  }

  ghost predicate ClosedIsDone(w: World) {
    ClosedTasksDone(w.tables, w.device.tasks)
  }

  predicate StatusOf(queue: seq<Queued>, op: Operation, status: LocalStatus) {
    exists k :: 0 <= k < |queue| && queue[k].op == op && queue[k].status == status
  }

  predicate AllSending(queue: seq<Queued>, sent: seq<Operation>) {
    forall j :: 0 <= j < |sent| ==> StatusOf(queue, sent[j], Enviando)
  }

  predicate Distinct(ops: seq<Operation>) {
    forall i, j :: 0 <= i < j < |ops| ==> ops[i].id != ops[j].id
  }

  /** What was sent and is still to be answered, when `rest` is left of the answer. */
  function Unanswered(sent: seq<Operation>, rest: seq<OpResult>): seq<Operation>
    requires |rest| <= |sent|
  {
    sent[|sent| - |rest|..]
  }

  /** The results still to be applied answer the last operations sent, which are still being sent. */
  predicate RestOk(t: Tables, queue: seq<Queued>, sent: seq<Operation>, rest: seq<OpResult>) {
    |rest| <= |sent| && ResultsOk(t, Unanswered(sent, rest), rest) && AllSending(queue, Unanswered(sent, rest))
  }

  predicate RunOk(w: World, run: SyncRun) {
    && AllRecorded(w.device.queue, run.sent) && Distinct(run.sent)
    && if run.answer.None? then
         && AllSending(w.device.queue, run.sent)
         && (run.request in w.wire ==> w.wire[run.request].ops == run.sent)
         && (run.request in w.answers ==>
               |w.answers[run.request]| == |run.sent| && ResultsOk(w.tables, run.sent, w.answers[run.request]))
       else RestOk(w.tables, w.device.queue, run.sent, run.answer.value)
  }

  ghost predicate Inv(w: World) {
    && TablesOk(w.tables) && QueueOk(w) && WireOk(w) && ClosedIsDone(w)
    && (w.run.Some? ==> RunOk(w, w.run.value))
  }

  lemma BorneOutPersists(t: Tables, t': Tables, op: Operation, decision: Decision)
    requires BorneOut(t, op, decision) && Extends(t, t')
    ensures BorneOut(t', op, decision)
  {
  }

  lemma RequestPersists(t: Tables, t': Tables, queue: seq<Queued>, queue': seq<Queued>, r: Request)
    requires RequestOk(t, queue, r) && Extends(t, t') && AllRecorded(queue', r.ops)
    ensures RequestOk(t', queue', r)
  {
    ResultsPersist(t, t', r.ops, r.results);
  }

  /** New tables that extend the old ones and store results for no queued operation but, rightly, for `op`. */
  lemma TablesMoveOn(w: World, t': Tables)
    requires Inv(w) && Extends(w.tables, t') && TablesOk(t') && ReceiptsFit(t', w.device.queue)
    ensures Inv(w.(tables := t'))
  {
    var w' := w.(tables := t');
    forall k | 0 <= k < |w.device.queue| && w.device.queue[k].status.Resolved?
      ensures BorneOut(t', w.device.queue[k].op, w.device.queue[k].status.decision)
    {
      BorneOutPersists(w.tables, t', w.device.queue[k].op, w.device.queue[k].status.decision);
    }
    forall r | r in w.wire ensures RequestOk(t', w.device.queue, w.wire[r]) {
      RequestPersists(w.tables, t', w.device.queue, w.device.queue, w.wire[r]);
    }
    if w.run.Some? {
      RunMovesOn(w, t', w.run.value);
    }
  }

  lemma ResultsPersist(t: Tables, t': Tables, ops: seq<Operation>, results: seq<OpResult>)
    requires ResultsOk(t, ops, results) && Extends(t, t')
    ensures ResultsOk(t', ops, results)
  {
    forall j | 0 <= j < |results| ensures BorneOut(t', ops[j], results[j].decision) {
      BorneOutPersists(t, t', ops[j], results[j].decision);
    }
  }

  lemma RunMovesOn(w: World, t': Tables, run: SyncRun)
    requires RunOk(w, run) && Extends(w.tables, t')
    ensures RunOk(w.(tables := t'), run)
  {
    if run.answer.Some? {
      ResultsPersist(w.tables, t', Unanswered(run.sent, run.answer.value), run.answer.value);
    } else if run.request in w.answers {
      ResultsPersist(w.tables, t', run.sent, w.answers[run.request]);
    }
  }

  lemma ReceiptsStillFit(t: Tables, queue: seq<Queued>, ev: Event)
    requires ReceiptsFit(t, queue)
    requires ev.Executes? ==> forall k :: 0 <= k < |queue| && queue[k].op.id == ev.op ==> queue[k].op.task == Some(ev.id)
    ensures ReceiptsFit(Replenishment.Next(t, ev), queue)
  {
    var t' := Replenishment.Next(t, ev);
    OnlyExecutionsStore(t, ev);
    StepExtends(t, ev);
    forall k | 0 <= k < |queue| && queue[k].op.id in t'.operations ensures queue[k].op.task == Some(t'.operations[queue[k].op.id].task) {
    }
  }

  lemma ElsewhereKeepsInv(w: World, event: Event)
    requires Inv(w) && Enabled(w, Elsewhere(event))
    ensures Inv(Next(w, Elsewhere(event)))
  {
    StepKeepsTables(w.tables, event);
    StepExtends(w.tables, event);
    ReceiptsStillFit(w.tables, w.device.queue, event);
    TablesMoveOn(w, Replenishment.Next(w.tables, event));
  }

  lemma DispatchIsBorneOut(t: Tables, op: Operation, seen: TaskStatus)
    requires op.task.Some? && (op.id in t.operations ==> op.task == Some(t.operations[op.id].task))
    requires seen.Done? ==> BorneOut(t, op, DescartadaDuplicidade)
    ensures BorneOut(Dispatched(t, op, seen).tables, op, Dispatched(t, op, seen).decision)
  {
    var ev := Executes(op.id, op.task.value, op.scan);
    OnlyExecutionsStore(t, ev);
    StepExtends(t, ev);
    assert Dispatched(t, op, seen).tables == Replenishment.Next(t, ev);
  }

  /** What the executor does with a queued operation fits the queue and the decision. */
  lemma DispatchFits(w: World, op: Operation, seen: TaskStatus)
    requires Inv(w) && Recorded(w.device.queue, op) && op.task.Some?
    requires seen.Done? ==> BorneOut(w.tables, op, DescartadaDuplicidade)
    ensures var d := Dispatched(w.tables, op, seen);
            Extends(w.tables, d.tables) && TablesOk(d.tables) && BorneOut(d.tables, op, d.decision) && ReceiptsFit(d.tables, w.device.queue)
  {
    var ev := Executes(op.id, op.task.value, op.scan);
    var i :| 0 <= i < |w.device.queue| && w.device.queue[i].op == op;
    StepKeepsTables(w.tables, ev);
    StepExtends(w.tables, ev);
    ReceiptsStillFit(w.tables, w.device.queue, ev);
    DispatchIsBorneOut(w.tables, op, seen);
  }

  /** One more result of a batch, borne out. */
  lemma ResultAppended(t: Tables, queue: seq<Queued>, r: Request, decision: Decision)
    requires RequestOk(t, queue, r) && |r.results| < |r.ops| && BorneOut(t, Current(r), decision)
    ensures RequestOk(t, queue, WithResult(r, decision))
  {
    var results := WithResult(r, decision).results;
    forall j | 0 <= j < |results| ensures results[j].id == r.ops[j].id && BorneOut(t, r.ops[j], results[j].decision) {
    }
  }

  lemma CallKeepsInv(w: World, request: Id, w': World)
    requires Inv(w) && Enabled(w, Call(request)) && w' == Next(w, Call(request))
    ensures Inv(w')
  {
    var r := w.wire[request];
    assert RequestOk(w.tables, w.device.queue, r);
    var op := Current(r);
    var d := Dispatched(w.tables, op, r.seen.value);
    assert Recorded(w.device.queue, op);
    DispatchFits(w, op, r.seen.value);
    var u := w.(tables := d.tables);
    TablesMoveOn(w, d.tables);
    RequestPersists(w.tables, d.tables, w.device.queue, w.device.queue, r);
    ResultAppended(d.tables, w.device.queue, r, d.decision);
    ReplaceRequest(u, request, WithResult(r, d.decision));
    assert w' == u.(wire := u.wire[request := WithResult(r, d.decision)]);
  }

  /** One request moves on, with the same operations. */
  lemma ReplaceRequest(w: World, request: Id, r: Request)
    requires Inv(w) && request in w.wire && r.ops == w.wire[request].ops && RequestOk(w.tables, w.device.queue, r)
    ensures Inv(w.(wire := w.wire[request := r]))
  {
    var w' := w.(wire := w.wire[request := r]);
    assert w.run.Some? ==> RunOk(w', w.run.value);
  }

  lemma LookKeepsInv(w: World, request: Id)
    requires Inv(w) && Enabled(w, Look(request))
    ensures Inv(Next(w, Look(request)))
  {
    var r := w.wire[request];
    var p := Peeked(w.tables, Current(r));
    ReplaceRequest(w, request, if p.Failure? then WithResult(r, p.error) else r.(seen := Some(p.value)));
  }

  lemma NetworkKeepsInv(w: World, s: Step)
    requires Inv(w) && Enabled(w, s) && (s.Lose? || s.Answer? || s.Receive? || s.Finish? || s.Reload?)
    ensures Inv(Next(w, s))
  {
    var w' := Next(w, s);
    if s.Receive? {
      var sent := w.run.value.sent;
      assert sent[|sent| - |sent|..] == sent;
      assert RunOk(w', w'.run.value);
    } else if s.Answer? {
      assert RequestOk(w.tables, w.device.queue, w.wire[s.request]);
      assert w.run.Some? ==> RunOk(w', w.run.value);
    } else if s.Lose? {
      assert w.run.Some? ==> RunOk(w', w.run.value);
    }
  }

  // ---- What every step keeps: the device side ----------------------------------------------

  /** The records of `queue`, possibly with other statuses, and possibly some more. */
  predicate Keeps(queue: seq<Queued>, queue': seq<Queued>) {
    |queue| <= |queue'| && forall k :: 0 <= k < |queue| ==> queue'[k].op == queue[k].op
  }

  lemma RecordsPersist(queue: seq<Queued>, queue': seq<Queued>, ops: seq<Operation>)
    requires Keeps(queue, queue') && AllRecorded(queue, ops)
    ensures AllRecorded(queue', ops)
  {
    forall j | 0 <= j < |ops| ensures Recorded(queue', ops[j]) {
      var k :| 0 <= k < |queue| && queue[k].op == ops[j];
      assert queue'[k].op == ops[j];
    }
  }

  lemma WirePersists(w: World, queue': seq<Queued>)
    requires WireOk(w) && Keeps(w.device.queue, queue')
    ensures forall r :: r in w.wire ==> RequestOk(w.tables, queue', w.wire[r])
  {
    forall r | r in w.wire ensures RequestOk(w.tables, queue', w.wire[r]) {
      RecordsPersist(w.device.queue, queue', w.wire[r].ops);
      RequestPersists(w.tables, w.tables, w.device.queue, queue', w.wire[r]);
    }
  }

  lemma StatusPersists(queue: seq<Queued>, queue': seq<Queued>, op: Operation, status: LocalStatus)
    requires StatusOf(queue, op, status) && |queue| <= |queue'|
    requires forall k :: 0 <= k < |queue| && queue[k].op == op ==> queue'[k] == queue[k]
    ensures StatusOf(queue', op, status)
  {
    var k :| 0 <= k < |queue| && queue[k].op == op && queue[k].status == status;
    assert queue'[k] == queue[k];
  }

  lemma {:induction false} MergedKeeps(tasks: map<Id, LocalTask>, pulled: seq<Id>)
    ensures forall id :: id in tasks ==> id in Merged(tasks, pulled) && Merged(tasks, pulled)[id] == tasks[id]
    ensures forall id :: id in Merged(tasks, pulled) && id !in tasks ==> Merged(tasks, pulled)[id] == LocalTask(TaskPending, false, None)
  {
    if pulled != [] {
      MergedKeeps(tasks, pulled[..|pulled| - 1]);
    }
  }

  lemma ConfirmKeepsInv(w: World, op: Operation)
    requires Inv(w) && Enabled(w, Confirm(op))
    ensures Inv(Next(w, Confirm(op)))
  {
    var w' := Next(w, Confirm(op));
    WirePersists(w, w'.device.queue);
    if w.run.Some? {
      var run := w.run.value;
      RecordsPersist(w.device.queue, w'.device.queue, run.sent);
      SendingPersists(w.device.queue, w'.device.queue, if run.answer.None? then run.sent else Unanswered(run.sent, run.answer.value));
    }
  }

  lemma SendingPersists(queue: seq<Queued>, queue': seq<Queued>, ops: seq<Operation>)
    requires AllSending(queue, ops) && queue <= queue'
    ensures AllSending(queue', ops)
  {
    forall j | 0 <= j < |ops| ensures StatusOf(queue', ops[j], Enviando) {
      StatusPersists(queue, queue', ops[j], Enviando);
    }
  }

  lemma TasksKeepInv(w: World, s: Step)
    requires Inv(w) && Enabled(w, s) && (s.Progress? || s.Pull?)
    ensures Inv(Next(w, s))
  {
    if s.Pull? {
      MergedKeeps(w.device.tasks, s.tasks);
    }
    assert w.run.Some? ==> RunOk(Next(w, s), w.run.value);
  }

  /** What waits was recorded, once each, and waits. */
  lemma {:induction false} WaitingIsPending(queue: seq<Queued>)
    requires forall k, j :: 0 <= k < j < |queue| ==> queue[k].op.id != queue[j].op.id
    ensures Distinct(Waiting(queue))
    ensures forall j :: 0 <= j < |Waiting(queue)| ==> StatusOf(queue, Waiting(queue)[j], LocalPendente)
  {
    if queue != [] {
      var n := |queue| - 1;
      var front := queue[..n];
      WaitingIsPending(front);
      forall j | 0 <= j < |Waiting(front)| ensures StatusOf(queue, Waiting(front)[j], LocalPendente) && Waiting(front)[j].id != queue[n].op.id {
        var k :| 0 <= k < |front| && front[k].op == Waiting(front)[j] && front[k].status == LocalPendente;
        assert queue[k] == front[k];
      }
      if queue[n].status.LocalPendente? {
        assert queue[n].op == queue[n].op && StatusOf(queue, queue[n].op, LocalPendente);
      }
    }
  }

  lemma NowSending(queue: seq<Queued>, sent: seq<Operation>)
    requires AllRecorded(queue, sent)
    ensures AllSending(SetAll(queue, sent, Enviando), sent) && AllRecorded(SetAll(queue, sent, Enviando), sent)
  {
    var queue' := SetAll(queue, sent, Enviando);
    forall j | 0 <= j < |sent| ensures StatusOf(queue', sent[j], Enviando) && Recorded(queue', sent[j]) {
      var k :| 0 <= k < |queue| && queue[k].op == sent[j];
      assert Among(sent, queue[k].op.id);
      assert queue'[k].op == sent[j] && queue'[k].status == Enviando;
    }
  }

  /** Changing statuses to ones that decide nothing. */
  lemma UndecidedKeepsQueue(w: World, ops: seq<Operation>, status: LocalStatus)
    requires QueueOk(w) && !status.Resolved?
    ensures QueueOk(w.(device := w.device.(queue := SetAll(w.device.queue, ops, status))))
  {
  }

  lemma BeginKeepsInv(w: World, request: Id)
    requires Inv(w) && Enabled(w, Begin(request))
    ensures Inv(Next(w, Begin(request)))
  {
    var w', sent := Next(w, Begin(request)), Waiting(w.device.queue);
    WaitingIsPending(w.device.queue);
    forall j | 0 <= j < |sent| ensures Recorded(w.device.queue, sent[j]) {
      var k :| 0 <= k < |w.device.queue| && w.device.queue[k].op == sent[j] && w.device.queue[k].status == LocalPendente;
    }
    NowSending(w.device.queue, sent);
    WirePersists(w, w'.device.queue);
    UndecidedKeepsQueue(w, sent, Enviando);
    assert RequestOk(w'.tables, w'.device.queue, w'.wire[request]);
    assert RunOk(w', w'.run.value);
  }

  lemma FailKeepsInv(w: World)
    requires Inv(w) && Enabled(w, Fail)
    ensures Inv(Next(w, Fail))
  {
    WirePersists(w, Next(w, Fail).device.queue);
    UndecidedKeepsQueue(w, w.run.value.sent, LocalPendente);
  }

  lemma PositionIs(sent: seq<Operation>, j: nat)
    requires Distinct(sent) && j < |sent|
    ensures PositionOf(sent, sent[j].id) == j
  {
  }

  /** Resolving the first answered operation leaves the others being sent. */
  lemma OthersStillSending(queue: seq<Queued>, ops: seq<Operation>, status: LocalStatus)
    requires ops != [] && Distinct(ops) && AllSending(queue, ops)
    ensures AllSending(SetStatus(queue, ops[0].id, status), ops[1..])
  {
    forall j | 0 <= j < |ops[1..]| ensures StatusOf(SetStatus(queue, ops[0].id, status), ops[1..][j], Enviando) {
      assert ops[1..][j] == ops[j + 1] && ops[0].id != ops[j + 1].id;
      StatusPersists(queue, SetStatus(queue, ops[0].id, status), ops[j + 1], Enviando);
    }
  }

  /** What the next result answers. */
  lemma NextAnswered(w: World)
    requires Inv(w) && Enabled(w, ApplyOne)
    ensures var run := w.run.value;
            var rest, i := run.answer.value, |run.sent| - |run.answer.value|;
            && 0 <= i < |run.sent| && Unanswered(run.sent, rest)[0] == run.sent[i] && rest[0].id == run.sent[i].id
            && BorneOut(w.tables, run.sent[i], rest[0].decision) && Recorded(w.device.queue, run.sent[i])
            && Unanswered(run.sent, rest[1..]) == Unanswered(run.sent, rest)[1..]
            && ResultsOk(w.tables, Unanswered(run.sent, rest[1..]), rest[1..])
  {
    var run := w.run.value;
    var rest := run.answer.value;
    var ops := Unanswered(run.sent, rest);
    assert ops[0] == run.sent[|run.sent| - |rest|] && ops[1..] == Unanswered(run.sent, rest[1..]);
    forall j | 0 <= j < |rest[1..]| ensures rest[1..][j].id == ops[1..][j].id && BorneOut(w.tables, ops[1..][j], rest[1..][j].decision) {
      assert rest[1..][j] == rest[j + 1] && ops[1..][j] == ops[j + 1];
    }
  }

  lemma ApplyKeepsRun(w: World)
    requires Inv(w) && Enabled(w, ApplyOne)
    ensures RunOk(Next(w, ApplyOne), Next(w, ApplyOne).run.value)
  {
    var run := w.run.value;
    var rest := run.answer.value;
    NextAnswered(w);
    RecordsPersist(w.device.queue, Next(w, ApplyOne).device.queue, run.sent);
    OthersStillSending(w.device.queue, Unanswered(run.sent, rest), Resolved(rest[0].decision));
  }

  /** Resolving one recorded operation as the tables bear out. */
  lemma ResolvingKeepsQueue(t: Tables, queue: seq<Queued>, op: Operation, decision: Decision)
    requires DistinctQueue(queue) && ReceiptsFit(t, queue) && ResolvedBorneOut(t, queue)
    requires Recorded(queue, op) && BorneOut(t, op, decision)
    ensures var queue' := SetStatus(queue, op.id, Resolved(decision));
            DistinctQueue(queue') && ReceiptsFit(t, queue') && ResolvedBorneOut(t, queue')
  {
    var at :| 0 <= at < |queue| && queue[at].op == op;
    assert forall k :: 0 <= k < |queue| && queue[k].op.id == op.id ==> k == at;
  }

  lemma ApplyKeepsQueue(w: World)
    requires Inv(w) && Enabled(w, ApplyOne)
    ensures QueueOk(Next(w, ApplyOne))
  {
    var run := w.run.value;
    NextAnswered(w);
    ResolvingKeepsQueue(w.tables, w.device.queue, run.sent[|run.sent| - |run.answer.value|], run.answer.value[0].decision);
  }

  lemma ClosingKeepsDone(t: Tables, tasks: map<Id, LocalTask>, id: Id, status: TaskLocalStatus)
    requires ClosedTasksDone(t, tasks) && (status.TaskDone? ==> id in t.tasks && t.tasks[id].status.Done?)
    ensures ClosedTasksDone(t, WithTask(tasks, id, status))
  {
  }

  /** What applying the next result does to the device's tasks. */
  lemma ApplySetsTask(w: World)
    requires Inv(w) && Enabled(w, ApplyOne)
    ensures var run := w.run.value;
            var op, decision := run.sent[|run.sent| - |run.answer.value|], run.answer.value[0].decision;
            Next(w, ApplyOne).device.tasks ==
            if op.task.None? then w.device.tasks else WithTask(w.device.tasks, op.task.value, TaskStatusAfter(decision))
  {
    NextAnswered(w);
    PositionIs(w.run.value.sent, |w.run.value.sent| - |w.run.value.answer.value|);
  }

  lemma ApplyClosesFinished(w: World)
    requires Inv(w) && Enabled(w, ApplyOne)
    ensures ClosedIsDone(Next(w, ApplyOne))
  {
    var run := w.run.value;
    var op, decision := run.sent[|run.sent| - |run.answer.value|], run.answer.value[0].decision;
    NextAnswered(w);
    ApplySetsTask(w);
    if op.task.Some? {
      if TaskStatusAfter(decision).TaskDone? {
        ClosedMeansDone(w.tables, op, decision);
      }
      ClosingKeepsDone(w.tables, w.device.tasks, op.task.value, TaskStatusAfter(decision));
    }
    assert Next(w, ApplyOne).tables == w.tables;
  }

  lemma ClosedMeansDone(t: Tables, op: Operation, decision: Decision)
    requires TablesOk(t) && BorneOut(t, op, decision) && TaskStatusAfter(decision).TaskDone?
    ensures op.task.Some? && op.task.value in t.tasks && t.tasks[op.task.value].status.Done?
  {
    if decision.Aplicada? {
      assert IsMovementOf(t, t.operations[op.id].movement, t.operations[op.id]);
    }
  }

  lemma StepKeepsInv(w: World, s: Step)
    requires Inv(w)
    ensures Inv(Next(w, s))
  {
    if Enabled(w, s) {
      match s
      case Confirm(op) => ConfirmKeepsInv(w, op);
      case Progress(_, _) => TasksKeepInv(w, s);
      case Pull(_) => TasksKeepInv(w, s);
      case Begin(request) => BeginKeepsInv(w, request);
      case Fail => FailKeepsInv(w);
      case Lose(_) => NetworkKeepsInv(w, s);
      case Look(request) => LookKeepsInv(w, request);
      case Call(request) => CallKeepsInv(w, request, Next(w, s));
      case Answer(_) => NetworkKeepsInv(w, s);
      case Receive => NetworkKeepsInv(w, s);
      case ApplyOne =>
        WirePersists(w, Next(w, s).device.queue);
        ApplyKeepsQueue(w);
        ApplyKeepsRun(w);
        ApplyClosesFinished(w);
      case Finish => NetworkKeepsInv(w, s);
      case Reload => NetworkKeepsInv(w, s);
      case Elsewhere(event) => ElsewhereKeepsInv(w, event);
    }
  }

  lemma {:induction false} InvOfRun(steps: seq<Step>)
    ensures Inv(Run(steps))
  {
    if steps != [] {
      InvOfRun(steps[..|steps| - 1]);
      StepKeepsInv(Run(steps[..|steps| - 1]), steps[|steps| - 1]);
    }
  }

  // ---- What holds after any interleaving ---------------------------------------------------

  /**
   However confirmations, sends, losses, failures, resends and other actors interleave: a task moves
   stock at most once; every replenishment row is the whole movement of one finished task, caused by
   one operation; and an operation causes no other.
   */
  lemma ExactlyOnceEffect(steps: seq<Step>, i: nat)
    requires i < |Run(steps).tables.stock.ledger| && Run(steps).tables.stock.ledger[i].movementType.Reposicao?
    ensures var t := Run(steps).tables;
            && (forall j :: 0 <= j < |t.stock.ledger| && t.stock.ledger[j].movementType.Reposicao? && j != i ==>
                  t.stock.ledger[j].task != t.stock.ledger[i].task)
            && exists op :: && op in t.operations && t.operations[op].movement == i && IsMovementOf(t, i, t.operations[op])
                            && t.tasks[t.operations[op].task].status.Done?
                            && forall other :: other in t.operations && t.operations[other].movement == i ==> other == op
  {
    InvOfRun(steps);
    var t := Run(steps).tables;
    forall j | 0 <= j < |t.stock.ledger| && t.stock.ledger[j].movementType.Reposicao? && j != i
      ensures t.stock.ledger[j].task != t.stock.ledger[i].task
    {
      if t.stock.ledger[j].task == t.stock.ledger[i].task {
        AtMostOneMovement(t, i, j);
      }
    }
    assert HasReceipt(t, i);
    var op :| op in t.operations && t.operations[op].movement == i;
    assert IsMovementOf(t, i, t.operations[op]);
    forall other | other in t.operations && t.operations[other].movement == i ensures other == op {
      assert IsMovementOf(t, i, t.operations[other]);
    }
  }

  /** An operation resolved APLICADA on the device moved its task's stock, exactly once; a resend is applied again and changes nothing. */
  lemma AppliedMeansMovedOnce(steps: seq<Step>, k: nat)
    requires k < |Run(steps).device.queue| && Run(steps).device.queue[k].status == Resolved(Aplicada)
    ensures var t, op := Run(steps).tables, Run(steps).device.queue[k].op;
            op.id in t.operations && op.task == Some(t.operations[op.id].task) && IsMovementOf(t, t.operations[op.id].movement, t.operations[op.id])
    ensures var t, op := Run(steps).tables, Run(steps).device.queue[k].op;
            forall j :: 0 <= j < |t.stock.ledger| && t.stock.ledger[j].movementType.Reposicao? && t.stock.ledger[j].task == op.task ==>
              j == t.operations[op.id].movement
    ensures var t, op := Run(steps).tables, Run(steps).device.queue[k].op;
            Peeked(t, op) == Success(Done) && forall seen :: Dispatched(t, op, seen) == Dispatch(t, Aplicada)
  {
    InvOfRun(steps);
    var t, op := Run(steps).tables, Run(steps).device.queue[k].op;
    var i := t.operations[op.id].movement;
    assert IsMovementOf(t, i, t.operations[op.id]);
    forall j | 0 <= j < |t.stock.ledger| && t.stock.ledger[j].movementType.Reposicao? && t.stock.ledger[j].task == op.task ensures j == i {
      AtMostOneMovement(t, i, j);
    }
    forall seen ensures Peeked(t, op) == Success(Done) && Dispatched(t, op, seen) == Dispatch(t, Aplicada) {
      ResendIsApplied(t, op, seen);
    }
    assert Peeked(t, op) == Success(Done) by {
      ResendIsApplied(t, op, Done);
    }
  }

  /** Whatever was lost on the way, an operation that took effect is applied again when it is sent again. */
  lemma LostAnswerIsAppliedAgain(steps: seq<Step>, k: nat, seen: TaskStatus)
    requires k < |Run(steps).device.queue| && Run(steps).device.queue[k].op.id in Run(steps).tables.operations
    ensures var t, op := Run(steps).tables, Run(steps).device.queue[k].op;
            Peeked(t, op) == Success(Done) && Dispatched(t, op, seen) == Dispatch(t, Aplicada)
  {
    InvOfRun(steps);
    ResendIsApplied(Run(steps).tables, Run(steps).device.queue[k].op, seen);
  }

  /** A task closed on the device is finished on the server, and its stock has moved. */
  lemma ClosedTasksAreFinished(steps: seq<Step>, id: Id)
    requires id in Run(steps).device.tasks && Run(steps).device.tasks[id].status.TaskDone?
    ensures var t := Run(steps).tables;
            && id in t.tasks && t.tasks[id].status.Done?
            && exists op :: op in t.operations && t.operations[op].task == id && IsMovementOf(t, t.operations[op].movement, t.operations[op])
  {
    InvOfRun(steps);
    var t := Run(steps).tables;
    assert IsFinished(t, id);
    var op :| op in t.operations && t.operations[op].task == id;
    assert IsMovementOf(t, t.operations[op].movement, t.operations[op]);
  }

  /** What the device has resolved stays resolved, the same way. */
  lemma ResolvedStaysResolved(steps: seq<Step>, s: Step, k: nat)
    requires k < |Run(steps).device.queue| && Run(steps).device.queue[k].status.Resolved?
    ensures k < |Next(Run(steps), s).device.queue| && Next(Run(steps), s).device.queue[k] == Run(steps).device.queue[k]
  {
    InvOfRun(steps);
    var w := Run(steps);
    var q := w.device.queue;
    if Enabled(w, s) {
      if s.Begin? {
        WaitingIsPending(q);
        NotAmong(q, Waiting(q), LocalPendente, k);
      } else if s.Fail? {
        NotAmong(q, w.run.value.sent, Enviando, k);
      } else if s.ApplyOne? {
        NextAnswered(w);
        var ops := Unanswered(w.run.value.sent, w.run.value.answer.value);
        assert StatusOf(q, ops[0], Enviando);
        var at :| 0 <= at < |q| && q[at].op == ops[0] && q[at].status == Enviando;
        assert at != k;
      }
    }
  }

  lemma NotAmong(queue: seq<Queued>, ops: seq<Operation>, status: LocalStatus, k: nat)
    requires DistinctQueue(queue) && k < |queue| && queue[k].status != status
    requires forall j :: 0 <= j < |ops| ==> StatusOf(queue, ops[j], status)
    ensures !Among(ops, queue[k].op.id)
  {
  }

  /** Looking at a task and then calling the executor, undisturbed, is what processing one operation means. */
  lemma LookThenCallProcesses(w: World, request: Id)
    requires Enabled(w, Look(request))
    ensures var r, d := w.wire[request], Processed(w.tables, Current(w.wire[request]));
            var w1 := Next(w, Look(request));
            var w2 := if Peeked(w.tables, Current(r)).Success? then Next(w1, Call(request)) else w1;
            w2.tables == d.tables && request in w2.wire && w2.wire[request] == WithResult(r, d.decision)
  {
  }

  /**
   Progress saved on a closed task offers it for execution again, but it never moves stock again: any
   other operation on it is discarded as a duplicate, now and after whatever happens in between.
   */
  lemma ReopenedTaskMovesNothing(steps: seq<Step>, id: Id, inProgress: bool, op: Operation, later: Tables)
    requires id in Run(steps).device.tasks && Run(steps).device.tasks[id].status.TaskDone?
    requires op.task == Some(id) && Extends(Run(steps).tables, later) && op.id !in later.operations
    ensures id in ExecutableTasks(Next(Run(steps), Progress(id, inProgress)).device.tasks)
    ensures Peeked(Run(steps).tables, op) == Success(Done) && Dispatched(later, op, Done) == Dispatch(later, DescartadaDuplicidade)
  {
    InvOfRun(steps);
    SecondOperationIsDiscarded(Run(steps).tables, later, op);
  }
}
