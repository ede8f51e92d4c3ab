/** What the synchronisation protocol does not give, and exactly when. */
module OfflineSyncLimits {
  import opened Common
  import opened OfflineSync
  import opened OfflineSyncRuns
  import Replenishment
  import StockEffects
  import StockLedger

  // ---- Operations that are sent and never answered -----------------------------------------

  /** Operation `k` is marked as being sent, but no run is waiting for its answer. */
  ghost predicate Orphaned(w: World, k: nat) {
    && k < |w.device.queue| && w.device.queue[k].status.Enviando?
    && (w.run.Some? ==> !Among(w.run.value.sent, w.device.queue[k].op.id))
  }

  /** What a run has sent and is still marked as being sent has yet to be answered. */
  ghost predicate SendingAwaited(w: World) {
    w.run.Some? && w.run.value.answer.Some? ==>
      var sent, rest := w.run.value.sent, w.run.value.answer.value;
      && |rest| <= |sent|
      && forall k :: 0 <= k < |w.device.queue| && w.device.queue[k].status.Enviando? && Among(sent, w.device.queue[k].op.id) ==>
        Among(Unanswered(sent, rest), w.device.queue[k].op.id)
  }

  lemma AmongRest(ops: seq<Operation>, id: Id)
    requires Among(ops, id) && ops[0].id != id
    ensures Among(ops[1..], id)
  {
    var j :| 0 <= j < |ops| && ops[j].id == id;
    assert ops[1..][j - 1].id == id;
  }

  lemma AllUnanswered(sent: seq<Operation>, rest: seq<OpResult>)
    requires |rest| == |sent|
    ensures Unanswered(sent, rest) == sent
  {
  }

  lemma ApplyKeepsAwaited(w: World)
    requires Inv(w) && SendingAwaited(w) && Enabled(w, ApplyOne)
    ensures SendingAwaited(Next(w, ApplyOne))
  {
    var w', run := Next(w, ApplyOne), w.run.value;
    var rest := run.answer.value;
    NextAnswered(w);
    forall k | 0 <= k < |w'.device.queue| && w'.device.queue[k].status.Enviando? && Among(run.sent, w'.device.queue[k].op.id)
      ensures Among(Unanswered(run.sent, rest[1..]), w'.device.queue[k].op.id)
    {
      assert w'.device.queue[k] == w.device.queue[k] && w.device.queue[k].op.id != rest[0].id;
      AmongRest(Unanswered(run.sent, rest), w.device.queue[k].op.id);
    }
  }

  lemma StepKeepsAwaited(w: World, s: Step)
    requires Inv(w) && SendingAwaited(w)
    ensures SendingAwaited(Next(w, s))
  {
    if Enabled(w, s) {
      if s.ApplyOne? {
        ApplyKeepsAwaited(w);
      } else if s.Receive? {
        AllUnanswered(w.run.value.sent, w.answers[w.run.value.request]);
      } else if s.Confirm? {
        assert forall k :: 0 <= k < |w.device.queue| ==> Next(w, s).device.queue[k] == w.device.queue[k];
      }
    }
  }

  lemma {:induction false} AwaitedOfRun(steps: seq<Step>)
    ensures Inv(Run(steps)) && SendingAwaited(Run(steps))
  {
    InvOfRun(steps);
    if steps != [] {
      AwaitedOfRun(steps[..|steps| - 1]);
      StepKeepsAwaited(Run(steps[..|steps| - 1]), steps[|steps| - 1]);
    }
  }

  /** A reload is the only step that orphans an operation, it orphans all that are being sent, and no step takes one back. */
  lemma OrphansExactly(steps: seq<Step>, s: Step, k: nat)
    ensures var w := Run(steps);
            Orphaned(Next(w, s), k) <==>
              Orphaned(w, k) || (s.Reload? && k < |w.device.queue| && w.device.queue[k].status.Enviando?)
  {
    AwaitedOfRun(steps);
    var w := Run(steps);
    var q := w.device.queue;
    if Enabled(w, s) {
      if s.Begin? {
        WaitingIsPending(q);
        if k < |q| && q[k].status.Enviando? {
          NotAmong(q, Waiting(q), LocalPendente, k);
        }
      } else if s.ApplyOne? {
        NextAnswered(w);
        ApplyOrphansNothing(w, k);
      } else if s.Finish? {
        assert !Among(Unanswered(w.run.value.sent, []), if k < |q| then q[k].op.id else 0);
      }
    }
  }

  lemma ApplyOrphansNothing(w: World, k: nat)
    requires Inv(w) && Enabled(w, ApplyOne)
    ensures Orphaned(Next(w, ApplyOne), k) <==> Orphaned(w, k)
  {
    var run := w.run.value;
    var r := run.answer.value[0];
    NextAnswered(w);
    assert Among(run.sent, r.id) by {
      assert run.sent[|run.sent| - |run.answer.value|].id == r.id;
    }
  }

  /** Some reload of the run met the operation while it was being sent. */
  ghost predicate MetByReload(steps: seq<Step>, k: nat) {
    exists n: nat :: n < |steps| && ReloadMeets(steps, n, k)
  }

  ghost predicate ReloadMeets(steps: seq<Step>, n: nat, k: nat)
    requires n < |steps|
  {
    steps[n].Reload? && k < |Run(steps[..n]).device.queue| && Run(steps[..n]).device.queue[k].status.Enviando?
  }

  lemma MetInFront(steps: seq<Step>, m: nat, k: nat)
    requires |steps| == m + 1
    ensures MetByReload(steps, k) <==> MetByReload(steps[..m], k) || ReloadMeets(steps, m, k)
  {
    forall n: nat | n < m ensures ReloadMeets(steps[..m], n, k) == ReloadMeets(steps, n, k) {
      assert steps[..m][..n] == steps[..n];
    }
  }

  /** After any run, an operation is orphaned exactly when some reload met it while it was being sent. */
  lemma {:induction false} OrphanedExactlyByReloads(steps: seq<Step>, k: nat)
    ensures Orphaned(Run(steps), k) <==> MetByReload(steps, k)
  {
    if steps != [] {
      var m := |steps| - 1;
      OrphanedExactlyByReloads(steps[..m], k);
      OrphansExactly(steps[..m], steps[m], k);
      MetInFront(steps, m, k);
    }
  }

  /** Without a reload, whatever is being sent is awaited by the run under way, and still unanswered. */
  lemma WithoutReloadsAllIsAwaited(steps: seq<Step>, k: nat)
    requires forall n :: 0 <= n < |steps| ==> !steps[n].Reload?
    requires k < |Run(steps).device.queue| && Run(steps).device.queue[k].status.Enviando?
    ensures var w := Run(steps);
            && w.run.Some? && Among(w.run.value.sent, w.device.queue[k].op.id)
            && (w.run.value.answer.Some? ==>
                  && |w.run.value.answer.value| <= |w.run.value.sent|
                  && Among(Unanswered(w.run.value.sent, w.run.value.answer.value), w.device.queue[k].op.id))
  {
    AwaitedOfRun(steps);
    OrphanedExactlyByReloads(steps, k);
  }

  // ---- Operations rejected on the device that take effect later ----------------------------

  /** A request at its call, about to execute `op` with success. */
  predicate Executes(w: World, s: Step, op: Operation) {
    && s.Call? && Enabled(w, s) && |w.wire[s.request].results| < |w.wire[s.request].ops|
    && Current(w.wire[s.request]) == op && op.task.Some?
    && Replenishment.Executed(w.tables, op.id, op.task.value, op.scan).outcome.Success?
  }

  /** An operation recorded on the device, and without effect so far, takes effect by exactly one kind of step: its own successful call. */
  lemma TakesEffectExactly(steps: seq<Step>, s: Step, op: Operation)
    requires Recorded(Run(steps).device.queue, op) && op.id !in Run(steps).tables.operations
    ensures op.id in Next(Run(steps), s).tables.operations <==> Executes(Run(steps), s, op)
  {
    InvOfRun(steps);
    var w := Run(steps);
    var k :| 0 <= k < |w.device.queue| && w.device.queue[k].op == op;
    if Enabled(w, s) {
      if s.Call? {
        CallStores(w, s.request, op);
      } else if s.Elsewhere? {
        Replenishment.OnlyExecutionsStore(w.tables, s.event);
      }
    }
  }

  lemma CallStores(w: World, request: Id, op: Operation)
    requires Inv(w) && Enabled(w, Call(request)) && Recorded(w.device.queue, op) && op.id !in w.tables.operations
    ensures op.id in Next(w, Call(request)).tables.operations <==> Executes(w, Call(request), op)
  {
    var r := w.wire[request];
    assert RequestOk(w.tables, w.device.queue, r);
    var c := Current(r);
    assert Recorded(w.device.queue, c);
    Replenishment.OnlyExecutionsStore(w.tables, Replenishment.Executes(c.id, c.task.value, c.scan));
    if c.id == op.id {
      SameIdSameOperation(w.device.queue, c, op);
    }
  }

  lemma SameIdSameOperation(queue: seq<Queued>, a: Operation, b: Operation)
    requires DistinctQueue(queue) && Recorded(queue, a) && Recorded(queue, b) && a.id == b.id
    ensures a == b
  {
  }

  /** Some batch on its way still has the operation to process. */
  predicate InFlight(w: World, op: Operation) {
    exists r :: r in w.wire && Pending(w.wire[r], op)
  }

  predicate Pending(r: Request, op: Operation) {
    |r.results| <= |r.ops| && exists j :: |r.results| <= j < |r.ops| && r.ops[j] == op
  }

  lemma ExecutesInFlight(w: World, s: Step, op: Operation)
    requires Executes(w, s, op)
    ensures InFlight(w, op)
  {
    var r := w.wire[s.request];
    assert r.ops[|r.results|] == op;
    assert Pending(r, op);
  }

  /** A resolved operation is never sent again, so once no batch holds it none ever will. */
  lemma NeverInFlightAgain(steps: seq<Step>, s: Step, k: nat)
    requires k < |Run(steps).device.queue| && Run(steps).device.queue[k].status.Resolved?
    requires !InFlight(Run(steps), Run(steps).device.queue[k].op)
    ensures !InFlight(Next(Run(steps), s), Run(steps).device.queue[k].op)
  {
    InvOfRun(steps);
    var w, w', op := Run(steps), Next(Run(steps), s), Run(steps).device.queue[k].op;
    if s.Begin? && Enabled(w, s) {
      WaitingIsPending(w.device.queue);
      NotAmong(w.device.queue, Waiting(w.device.queue), LocalPendente, k);
      assert forall j :: 0 <= j < |Waiting(w.device.queue)| ==> Waiting(w.device.queue)[j] != op;
    }
    forall r | r in w'.wire ensures !Pending(w'.wire[r], op) {
      assert r in w.wire ==> !Pending(w.wire[r], op);
    }
  }

  lemma ContinuationSnoc(steps: seq<Step>, more: seq<Step>)
    requires more != []
    ensures Run(steps + more) == Next(Run(steps + more[..|more| - 1]), more[|more| - 1])
  {
    assert (steps + more)[..|steps + more| - 1] == steps + more[..|more| - 1];
  }

  /** What the device has resolved stays as it is in every continuation. */
  lemma {:induction false} ResolvedForGood(steps: seq<Step>, more: seq<Step>, k: nat)
    requires k < |Run(steps).device.queue| && Run(steps).device.queue[k].status.Resolved?
    ensures k < |Run(steps + more).device.queue| && Run(steps + more).device.queue[k] == Run(steps).device.queue[k]
  {
    if more == [] {
      assert steps + more == steps;
    } else {
      var front := more[..|more| - 1];
      ResolvedForGood(steps, front, k);
      ResolvedStaysResolved(steps + front, more[|more| - 1], k);
      ContinuationSnoc(steps, more);
    }
  }

  /** A resolved operation that is without effect and in no batch stays without effect, in every continuation. */
  lemma {:induction false} RejectedIsSafeOnceDelivered(steps: seq<Step>, more: seq<Step>, k: nat)
    requires k < |Run(steps).device.queue| && Run(steps).device.queue[k].status.Resolved?
    requires Run(steps).device.queue[k].op.id !in Run(steps).tables.operations && !InFlight(Run(steps), Run(steps).device.queue[k].op)
    ensures var op := Run(steps).device.queue[k].op;
            op.id !in Run(steps + more).tables.operations && !InFlight(Run(steps + more), op)
  {
    var op := Run(steps).device.queue[k].op;
    if more == [] {
      assert steps + more == steps;
    } else {
      var front, last := more[..|more| - 1], more[|more| - 1];
      RejectedIsSafeOnceDelivered(steps, front, k);
      ResolvedForGood(steps, front, k);
      ContinuationSnoc(steps, more);
      NeverInFlightAgain(steps + front, last, k);
      assert Recorded(Run(steps + front).device.queue, op);
      TakesEffectExactly(steps + front, last, op);
      if Executes(Run(steps + front), last, op) {
        ExecutesInFlight(Run(steps + front), last, op);
      }
    }
  }

  /** Step `n` of a continuation executes the operation for the first time. */
  ghost predicate AppliedAt(steps: seq<Step>, more: seq<Step>, n: nat, op: Operation)
    requires n < |more|
  {
    Executes(Run(steps + more[..n]), more[n], op)
  }

  ghost predicate AppliedIn(steps: seq<Step>, more: seq<Step>, op: Operation) {
    exists n: nat :: n < |more| && AppliedAt(steps, more, n, op)
  }

  /** Over a whole continuation: a recorded operation without effect comes to take effect exactly when a batch that still holds it executes it. */
  lemma {:induction false} LateEffectExactly(steps: seq<Step>, more: seq<Step>, k: nat)
    requires k < |Run(steps).device.queue| && Run(steps).device.queue[k].status.Resolved?
    requires Run(steps).device.queue[k].op.id !in Run(steps).tables.operations
    ensures var op := Run(steps).device.queue[k].op;
            op.id in Run(steps + more).tables.operations <==> AppliedIn(steps, more, op)
  {
    var op := Run(steps).device.queue[k].op;
    if more == [] {
      assert steps + more == steps;
    } else {
      var m := |more| - 1;
      var front := more[..m];
      LateEffectExactly(steps, front, k);
      ResolvedForGood(steps, front, k);
      ContinuationSnoc(steps, more);
      assert Recorded(Run(steps + front).device.queue, op);
      PrefixApplies(steps, more, m, op);
      StoredByOneMore(steps + front, more[m], op);
    }
  }

  /** After one more step an operation has taken effect if it had before, or if the step executes it. */
  lemma StoredByOneMore(steps: seq<Step>, s: Step, op: Operation)
    requires Recorded(Run(steps).device.queue, op)
    ensures op.id in Next(Run(steps), s).tables.operations <==> op.id in Run(steps).tables.operations || Executes(Run(steps), s, op)
  {
    if op.id in Run(steps).tables.operations {
      StoredStaysStored(Run(steps), s, op.id);
    } else {
      TakesEffectExactly(steps, s, op);
    }
  }

  lemma StoredStaysStored(w: World, s: Step, id: Id)
    requires id in w.tables.operations
    ensures id in Next(w, s).tables.operations
  {
    if Enabled(w, s) {
      if s.Call? && |w.wire[s.request].results| < |w.wire[s.request].ops| && Current(w.wire[s.request]).task.Some? {
        var op := Current(w.wire[s.request]);
        Replenishment.ExecutionExtends(w.tables, op.id, op.task.value, op.scan);
      } else if s.Elsewhere? {
        Replenishment.StepExtends(w.tables, s.event);
      }
    }
  }

  /** A continuation applies the operation somewhere exactly when all but its last step do, or the last one does. */
  lemma PrefixApplies(steps: seq<Step>, more: seq<Step>, m: nat, op: Operation)
    requires |more| == m + 1
    ensures AppliedIn(steps, more, op) <==> AppliedIn(steps, more[..m], op) || AppliedAt(steps, more, m, op)
  {
    forall n: nat | n < m ensures AppliedAt(steps, more[..m], n, op) == AppliedAt(steps, more, n, op) {
      assert more[..m][..n] == more[..n];
    }
  }

  // ---- Concrete runs -----------------------------------------------------------------------

  lemma RunGoesOn(steps: seq<Step>, n: nat, w: World)
    requires n < |steps| && Run(steps[..n]) == w
    ensures Run(steps[..n + 1]) == Next(w, steps[n])
  {
    assert steps[..n + 1][..n] == steps[..n];
  }

  /** A replenishment of five units from location 10 to location 20, and the operation that scans it rightly. */
  const TASK := Replenishment.Task(1, 1, 1, None, 10, 20, 5, Replenishment.Created)
  const OPERATION := Operation(5, Some(1), Replenishment.Scan(Some(10), Some(20)))

  /** A device with that one operation recorded, and no task of its own. */
  function Scene(
    t: Replenishment.Tables, status: LocalStatus, run: Option<SyncRun>, wire: map<Id, Request>, answers: map<Id, seq<OpResult>>): World
  {
    World(t, Device([Queued(OPERATION, status)], map[]), run, wire, answers)
  }

  lemma SceneConfirms(t: Replenishment.Tables)
    requires OPERATION.id !in t.operations
    ensures Next(World(t, Device([], map[]), None, map[], map[]), Confirm(OPERATION)) == Scene(t, LocalPendente, None, map[], map[])
  {
    assert [] + [Queued(OPERATION, LocalPendente)] == [Queued(OPERATION, LocalPendente)];
  }

  lemma SceneBegins(t: Replenishment.Tables, r: Id, wire: map<Id, Request>)
    requires r !in wire
    ensures Next(Scene(t, LocalPendente, None, wire, map[]), Begin(r)) ==
            Scene(t, Enviando, Some(SyncRun([OPERATION], r, None)), wire[r := Request([OPERATION], [], None)], map[])
  {
    var queue := [Queued(OPERATION, LocalPendente)];
    assert queue[..0] == [];
    assert Waiting(queue) == [OPERATION];
    assert [OPERATION][0].id == OPERATION.id;
    assert SetAll(queue, [OPERATION], Enviando) == [Queued(OPERATION, Enviando)];
  }

  lemma SceneFails(t: Replenishment.Tables, r: Id, wire: map<Id, Request>)
    ensures Next(Scene(t, Enviando, Some(SyncRun([OPERATION], r, None)), wire, map[]), Fail) ==
            Scene(t, LocalPendente, None, wire, map[])
  {
    assert [OPERATION][0].id == OPERATION.id;
    assert SetAll([Queued(OPERATION, Enviando)], [OPERATION], LocalPendente) == [Queued(OPERATION, LocalPendente)];
  }

  lemma SceneLooks(t: Replenishment.Tables, status: LocalStatus, run: Option<SyncRun>, wire: map<Id, Request>, r: Id)
    requires r in wire && wire[r] == Request([OPERATION], [], None) && 1 in t.tasks && !t.tasks[1].status.Cancelled?
    ensures Next(Scene(t, status, run, wire, map[]), Look(r)) ==
            Scene(t, status, run, wire[r := Request([OPERATION], [], Some(t.tasks[1].status))], map[])
  {
  }

  lemma SceneCalls(t: Replenishment.Tables, status: LocalStatus, run: Option<SyncRun>, wire: map<Id, Request>, r: Id, seen: Replenishment.TaskStatus)
    requires r in wire && wire[r] == Request([OPERATION], [], Some(seen))
    ensures var d := Dispatched(t, OPERATION, seen);
            Next(Scene(t, status, run, wire, map[]), Call(r)) ==
            Scene(d.tables, status, run, wire[r := Request([OPERATION], [OpResult(5, d.decision)], None)], map[])
  {
    var d := Dispatched(t, OPERATION, seen);
    assert WithResult(wire[r], d.decision) == Request([OPERATION], [OpResult(5, d.decision)], None);
  }

  lemma SceneAnswers(t: Replenishment.Tables, run: Option<SyncRun>, wire: map<Id, Request>, r: Id, results: seq<OpResult>)
    requires r in wire && wire[r] == Request([OPERATION], results, None) && |results| == 1
    ensures Next(Scene(t, Enviando, run, wire, map[]), Answer(r)) == Scene(t, Enviando, run, wire - {r}, map[r := results])
  {
  }

  lemma SceneReceives(t: Replenishment.Tables, wire: map<Id, Request>, r: Id, results: seq<OpResult>)
    ensures Next(Scene(t, Enviando, Some(SyncRun([OPERATION], r, None)), wire, map[r := results]), Receive) ==
            Scene(t, Enviando, Some(SyncRun([OPERATION], r, Some(results))), wire, map[])
  {
    assert map[r := results] - {r} == map[];
  }

  lemma SceneFinishes(t: Replenishment.Tables, status: LocalStatus, wire: map<Id, Request>, r: Id)
    ensures Next(Scene(t, status, Some(SyncRun([OPERATION], r, Some([]))), wire, map[]), Finish) == Scene(t, status, None, wire, map[])
  {
  }

  lemma SceneApplies(t: Replenishment.Tables, r: Id, wire: map<Id, Request>, decision: Decision)
    ensures Next(Scene(t, Enviando, Some(SyncRun([OPERATION], r, Some([OpResult(5, decision)]))), wire, map[]), ApplyOne) ==
            Scene(t, Resolved(decision), Some(SyncRun([OPERATION], r, Some([]))), wire, map[])
  {
    assert [OpResult(5, decision)][1..] == [];
    assert SetStatus([Queued(OPERATION, Enviando)], 5, Resolved(decision)) == [Queued(OPERATION, Resolved(decision))];
    assert PositionOf([OPERATION], 5) == 0;
  }

  const NO_TABLES := Replenishment.Tables(map[], map[], StockLedger.EMPTY_STOCK)

  lemma RunStarts(steps: seq<Step>)
    ensures Run(steps[..0]) == START
  {
  }

  /** Three steps suffice: confirm, begin to send, reload. */
  lemma ReloadWhileSendingOrphans(steps: seq<Step>)
    requires steps == [Confirm(OPERATION), Begin(1), Reload]
    ensures Orphaned(Run(steps), 0)
  {
    var sending := Scene(NO_TABLES, Enviando, Some(SyncRun([OPERATION], 1, None)), map[1 := Request([OPERATION], [], None)], map[]);
    assert Run(steps[..2]) == sending by {
      RunStarts(steps);
      RunGoesOn(steps, 0, START);
      SceneConfirms(NO_TABLES);
      RunGoesOn(steps, 1, Scene(NO_TABLES, LocalPendente, None, map[], map[]));
      SceneBegins(NO_TABLES, 1, map[]);
    }
    RunGoesOn(steps, 2, sending);
    assert steps[..3] == steps;
  }

  // ---- A rejected operation that takes effect, step by step --------------------------------

  /** Five units, put away at location 10. */
  const ENTRY := StockLedger.Movement.Movement(
    1, 1, None, StockEffects.Putaway, 1, None, 5, None, None, Some(10), None, Some(StockEffects.Available), None, None, None, None, false)

  const ASSIGNED := Replenishment.Tables(
    map[1 := TASK.(status := Replenishment.Assigned)], map[], StockLedger.EMPTY_STOCK)

  function Supplied(): Replenishment.Tables {
    ASSIGNED.(stock := StockLedger.Step(StockLedger.EMPTY_STOCK, ENTRY))
  }

  /** Without stock at the origin the call is refused, and a look before it saw an assigned task: rejected by rule. */
  lemma RefusedWithoutStock()
    ensures Dispatched(ASSIGNED, OPERATION, Replenishment.Assigned) == Dispatch(ASSIGNED, RejeitadaRegra)
  {
    assert StockLedger.Applied(StockLedger.EMPTY_STOCK, Replenishment.ReposicaoMovement(1, ASSIGNED.tasks[1])).Failure?;
  }

  lemma AcceptedWithStock()
    ensures Replenishment.Executed(Supplied(), 5, 1, OPERATION.scan).outcome.Success?
    ensures |Supplied().stock.ledger| == 1
  {
    var s := StockLedger.Step(StockLedger.EMPTY_STOCK, ENTRY);
    var leg := StockLedger.Leg(StockLedger.Key(1, 1, 1, None, Some(10), None), StockEffects.Available);
    assert StockLedger.PostingOf(ENTRY).value.credit == Some(leg);
    assert StockLedger.Qty(s.balances, leg) == 5;
  }

  lemma TaskIsAssigned(steps: seq<Step>)
    requires |steps| >= 3 && steps[0] == Elsewhere(Replenishment.Generates(1, TASK))
    requires steps[1] == Elsewhere(Replenishment.Assigns(1)) && steps[2] == Confirm(OPERATION)
    ensures Run(steps[..3]) == Scene(ASSIGNED, LocalPendente, None, map[], map[])
  {
    RunStarts(steps);
    RunGoesOn(steps, 0, START);
    var created := Replenishment.Tables(map[1 := TASK], map[], StockLedger.EMPTY_STOCK);
    assert Replenishment.Generated(NO_TABLES, 1, TASK) == created;
    RunGoesOn(steps, 1, World(created, Device([], map[]), None, map[], map[]));
    assert Replenishment.AssignedTask(created, 1).value.tasks == ASSIGNED.tasks;
    RunGoesOn(steps, 2, World(ASSIGNED, Device([], map[]), None, map[], map[]));
    SceneConfirms(ASSIGNED);
  }

  const FRESH := Request([OPERATION], [], None)

  /** Sent, given up and sent again: two copies are on their way. */
  lemma TwoCopiesAreSent(steps: seq<Step>)
    requires |steps| >= 6 && Run(steps[..3]) == Scene(ASSIGNED, LocalPendente, None, map[], map[])
    requires steps[3] == Begin(1) && steps[4] == Fail && steps[5] == Begin(2)
    ensures Run(steps[..6]) == Scene(ASSIGNED, Enviando, Some(SyncRun([OPERATION], 2, None)), map[1 := FRESH, 2 := FRESH], map[])
  {
    var first := map[1 := FRESH];
    RunGoesOn(steps, 3, Scene(ASSIGNED, LocalPendente, None, map[], map[]));
    SceneBegins(ASSIGNED, 1, map[]);
    assert map[][1 := FRESH] == first;
    RunGoesOn(steps, 4, Scene(ASSIGNED, Enviando, Some(SyncRun([OPERATION], 1, None)), first, map[]));
    SceneFails(ASSIGNED, 1, first);
    RunGoesOn(steps, 5, Scene(ASSIGNED, LocalPendente, None, first, map[]));
    SceneBegins(ASSIGNED, 2, first);
    assert first[2 := FRESH] == map[1 := FRESH, 2 := FRESH];
  }

  /** The second copy is processed, and rejected. */
  lemma SecondCopyIsRejected(steps: seq<Step>)
    requires |steps| >= 8 && steps[6] == Look(2) && steps[7] == Call(2)
    requires Run(steps[..6]) == Scene(ASSIGNED, Enviando, Some(SyncRun([OPERATION], 2, None)), map[1 := FRESH, 2 := FRESH], map[])
    ensures Run(steps[..8]) == Scene(ASSIGNED, Enviando, Some(SyncRun([OPERATION], 2, None)),
                                     map[1 := FRESH, 2 := Request([OPERATION], [OpResult(5, RejeitadaRegra)], None)], map[])
  {
    var run := Some(SyncRun([OPERATION], 2, None));
    var both := map[1 := FRESH, 2 := FRESH];
    var seen := both[2 := Request([OPERATION], [], Some(Replenishment.Assigned))];
    RunGoesOn(steps, 6, Scene(ASSIGNED, Enviando, run, both, map[]));
    SceneLooks(ASSIGNED, Enviando, run, both, 2);
    RunGoesOn(steps, 7, Scene(ASSIGNED, Enviando, run, seen, map[]));
    SceneCalls(ASSIGNED, Enviando, run, seen, 2, Replenishment.Assigned);
    RefusedWithoutStock();
    assert seen[2 := Request([OPERATION], [OpResult(5, RejeitadaRegra)], None)]
        == map[1 := FRESH, 2 := Request([OPERATION], [OpResult(5, RejeitadaRegra)], None)];
  }

  /** The rejection reaches the device; the first copy is still on its way. */
  lemma RejectionIsResolved(steps: seq<Step>)
    requires |steps| >= 12 && steps[8] == Answer(2) && steps[9] == Receive && steps[10] == ApplyOne && steps[11] == Finish
    requires Run(steps[..8]) == Scene(ASSIGNED, Enviando, Some(SyncRun([OPERATION], 2, None)),
                                      map[1 := FRESH, 2 := Request([OPERATION], [OpResult(5, RejeitadaRegra)], None)], map[])
    ensures Run(steps[..12]) == Scene(ASSIGNED, Resolved(RejeitadaRegra), None, map[1 := FRESH], map[])
  {
    var results := [OpResult(5, RejeitadaRegra)];
    var sent, got := Some(SyncRun([OPERATION], 2, None)), Some(SyncRun([OPERATION], 2, Some(results)));
    var both, first := map[1 := FRESH, 2 := Request([OPERATION], results, None)], map[1 := FRESH];
    assert both - {2} == first;
    RunGoesOn(steps, 8, Scene(ASSIGNED, Enviando, sent, both, map[]));
    SceneAnswers(ASSIGNED, sent, both, 2, results);
    RunGoesOn(steps, 9, Scene(ASSIGNED, Enviando, sent, first, map[2 := results]));
    SceneReceives(ASSIGNED, first, 2, results);
    RunGoesOn(steps, 10, Scene(ASSIGNED, Enviando, got, first, map[]));
    SceneApplies(ASSIGNED, 2, first, RejeitadaRegra);
    RunGoesOn(steps, 11, Scene(ASSIGNED, Resolved(RejeitadaRegra), Some(SyncRun([OPERATION], 2, Some([]))), first, map[]));
    SceneFinishes(ASSIGNED, Resolved(RejeitadaRegra), first, 2);
  }

  /** Stock arrives, and the delayed first copy executes. */
  lemma FirstCopyIsApplied(steps: seq<Step>)
    requires |steps| == 15 && Run(steps[..12]) == Scene(ASSIGNED, Resolved(RejeitadaRegra), None, map[1 := FRESH], map[])
    requires steps[12] == Elsewhere(Replenishment.OtherMovement(ENTRY)) && steps[13] == Look(1) && steps[14] == Call(1)
    ensures Run(steps).device.queue == [Queued(OPERATION, Resolved(RejeitadaRegra))] && 5 in Run(steps).tables.operations
  {
    var status := Resolved(RejeitadaRegra);
    RunGoesOn(steps, 12, Scene(ASSIGNED, status, None, map[1 := FRESH], map[]));
    RunGoesOn(steps, 13, Scene(Supplied(), status, None, map[1 := FRESH], map[]));
    SceneLooks(Supplied(), status, None, map[1 := FRESH], 1);
    var seen := map[1 := FRESH][1 := Request([OPERATION], [], Some(Replenishment.Assigned))];
    RunGoesOn(steps, 14, Scene(Supplied(), status, None, seen, map[]));
    SceneCalls(Supplied(), status, None, seen, 1, Replenishment.Assigned);
    AcceptedWithStock();
    OnlyAppliedMovesStock(Supplied(), OPERATION, Replenishment.Assigned);
    assert steps[..15] == steps;
  }

  /** Fifteen steps: a batch given up and sent again, the second copy refused for lack of stock, stock arriving, the first copy processed. */
  predicate DelayedCopy(steps: seq<Step>) {
    && |steps| == 15
    && steps[0] == Elsewhere(Replenishment.Generates(1, TASK)) && steps[1] == Elsewhere(Replenishment.Assigns(1))
    && steps[2] == Confirm(OPERATION) && steps[3] == Begin(1) && steps[4] == Fail && steps[5] == Begin(2)
    && steps[6] == Look(2) && steps[7] == Call(2) && steps[8] == Answer(2)
    && steps[9] == Receive && steps[10] == ApplyOne && steps[11] == Finish
    && steps[12] == Elsewhere(Replenishment.OtherMovement(ENTRY)) && steps[13] == Look(1) && steps[14] == Call(1)
  }

  /** In that run the device has resolved its operation as rejected, and the operation has taken effect. */
  lemma RejectedMayStillTakeEffect(steps: seq<Step>)
    requires DelayedCopy(steps)
    ensures Run(steps[..12]).device.queue == [Queued(OPERATION, Resolved(RejeitadaRegra))] && 5 !in Run(steps[..12]).tables.operations
    ensures Run(steps).device.queue == [Queued(OPERATION, Resolved(RejeitadaRegra))] && 5 in Run(steps).tables.operations
  {
    TaskIsAssigned(steps);
    TwoCopiesAreSent(steps);
    SecondCopyIsRejected(steps);
    RejectionIsResolved(steps);
    FirstCopyIsApplied(steps);
  }
}
