/** Exactly when an operation that the device has resolved without effect can still take effect. */
module OfflineSyncLate {
  import opened Common
  import opened OfflineSync
  import opened OfflineSyncRuns
  import opened OfflineSyncLimits
  import E = StockEffects
  import R = Replenishment
  import S = StockLedger

  /** The task of the operation is still open, and its scan is right. */
  predicate Doable(t: R.Tables, op: Operation) {
    && op.task.Some? && op.task.value in t.tasks
    && var task := t.tasks[op.task.value];
    R.IsOpen(task.status) && op.scan == R.Scan(Some(task.origin), Some(task.destination))
  }

  predicate Known(t: R.Tables, op: Operation) {
    op.task.Some? && op.task.value in t.tasks
  }

  // ---- What is not doable stays so ----------------------------------------------------------

  lemma ExecutionKeepsUndoable(t: R.Tables, other: Id, id: Id, scan: R.Scan, op: Operation)
    requires Known(t, op) && !Doable(t, op)
    ensures Known(R.Executed(t, other, id, scan).tables, op) && !Doable(R.Executed(t, other, id, scan).tables, op)
  {
  }

  lemma EventKeepsUndoable(t: R.Tables, ev: R.Event, op: Operation)
    requires Known(t, op) && !Doable(t, op)
    ensures Known(R.Next(t, ev), op) && !Doable(R.Next(t, ev), op)
  {
    if ev.Executes? {
      ExecutionKeepsUndoable(t, ev.op, ev.id, ev.scan, op);
    }
  }

  lemma StepKeepsUndoable(w: World, s: Step, op: Operation)
    requires Known(w.tables, op) && !Doable(w.tables, op)
    ensures Known(Next(w, s).tables, op) && !Doable(Next(w, s).tables, op)
  {
    if Enabled(w, s) {
      if s.Call? && |w.wire[s.request].results| < |w.wire[s.request].ops| && Current(w.wire[s.request]).task.Some? {
        var c := Current(w.wire[s.request]);
        ExecutionKeepsUndoable(w.tables, c.id, c.task.value, c.scan, op);
      } else if s.Elsewhere? {
        EventKeepsUndoable(w.tables, s.event, op);
      }
    }
  }

  /** An operation whose task is closed, or whose scan is wrong, never takes effect. */
  lemma {:induction false} UndoableNeverApplies(steps: seq<Step>, more: seq<Step>, k: nat)
    requires k < |Run(steps).device.queue| && Run(steps).device.queue[k].status.Resolved?
    requires var op := Run(steps).device.queue[k].op;
             op.id !in Run(steps).tables.operations && Known(Run(steps).tables, op) && !Doable(Run(steps).tables, op)
    ensures var op := Run(steps).device.queue[k].op;
            && op.id !in Run(steps + more).tables.operations
            && Known(Run(steps + more).tables, op) && !Doable(Run(steps + more).tables, op)
  {
    var op := Run(steps).device.queue[k].op;
    if more == [] {
      assert steps + more == steps;
    } else {
      var front, last := more[..|more| - 1], more[|more| - 1];
      UndoableNeverApplies(steps, front, k);
      ResolvedForGood(steps, front, k);
      ContinuationSnoc(steps, more);
      assert Recorded(Run(steps + front).device.queue, op);
      TakesEffectExactly(steps + front, last, op);
      StepKeepsUndoable(Run(steps + front), last, op);
    }
  }

  // ---- What is doable and on its way can be done --------------------------------------------

  function Through(w: World, more: seq<Step>): World
    decreases |more|
  {
    if more == [] then w else Through(Next(w, more[0]), more[1..])
  }

  lemma {:induction false} ThroughConcat(w: World, more: seq<Step>, rest: seq<Step>)
    ensures Through(w, more + rest) == Through(Through(w, more), rest)
    decreases |more|
  {
    if more == [] {
      assert more + rest == rest;
    } else {
      assert (more + rest)[0] == more[0] && (more + rest)[1..] == more[1..] + rest;
      ThroughConcat(Next(w, more[0]), more[1..], rest);
    }
  }

  lemma ThroughOne(w: World, s: Step, rest: seq<Step>)
    ensures Through(w, [s] + rest) == Through(Next(w, s), rest)
  {
    assert ([s] + rest)[1..] == rest;
  }

  lemma {:induction false} RunThrough(steps: seq<Step>, more: seq<Step>)
    ensures Run(steps + more) == Through(Run(steps), more)
    decreases |more|
  {
    if more == [] {
      assert steps + more == steps;
    } else {
      assert steps + more == (steps + [more[0]]) + more[1..];
      RunThrough(steps + [more[0]], more[1..]);
      assert (steps + [more[0]])[..|steps|] == steps;
    }
  }

  function TaskOf(t: R.Tables, op: Operation): R.Task
    requires Known(t, op)
  {
    t.tasks[op.task.value]
  }

  /** The bucket a task takes from. */
  function Origin(task: R.Task): S.Leg {
    S.Leg(S.Key(task.tenant, task.warehouse, task.product, task.batch, Some(task.origin), None), E.Available)
  }

  function Supply(task: R.Task, qty: int): S.Movement {
    S.Movement.Movement(task.tenant, task.warehouse, None, E.EntradaRecebimento, task.product, task.batch, qty,
                        None, None, Some(task.origin), None, None, Some(E.Available), None, None, None, false)
  }

  function Drain(task: R.Task, qty: int): S.Movement {
    S.Movement.Movement(task.tenant, task.warehouse, None, E.AjusteInventarioNeg, task.product, task.batch, qty,
                        Some(task.origin), None, None, None, None, None, None, None, None, false)
  }

  lemma SupplyArrives(s: S.Stock, task: R.Task, qty: int)
    requires qty > 0
    ensures S.Qty(S.Step(s, Supply(task, qty)).balances, Origin(task)) == S.Qty(s.balances, Origin(task)) + qty
  {
    assert S.PostingOf(Supply(task, qty)).value.credit == Some(Origin(task)) && S.PostingOf(Supply(task, qty)).value.debit.None?;
  }

  lemma DrainEmpties(s: S.Stock, task: R.Task)
    requires S.Qty(s.balances, Origin(task)) > 0
    ensures S.Qty(S.Step(s, Drain(task, S.Qty(s.balances, Origin(task)))).balances, Origin(task)) == 0
  {
    var m := Drain(task, S.Qty(s.balances, Origin(task)));
    assert S.PostingOf(m).value.debit == Some(Origin(task)) && S.PostingOf(m).value.credit.None?;
  }

  lemma ReplenishingFits(s: S.Stock, id: Id, task: R.Task)
    requires task.qty > 0
    ensures S.Applied(s, R.ReposicaoMovement(id, task)).Success? <==> S.Qty(s.balances, Origin(task)) >= task.qty
  {
    assert S.PostingOf(R.ReposicaoMovement(id, task)).value.debit == Some(Origin(task));
  }

  /** A copy of the operation is `d` operations away from its turn, and nothing stands against it. */
  predicate OnItsWay(w: World, r: Id, op: Operation, d: nat) {
    && r in w.wire && |w.wire[r].results| + d < |w.wire[r].ops| && w.wire[r].ops[|w.wire[r].results| + d] == op
    && (forall j :: 0 <= j < |w.wire[r].ops| && w.wire[r].ops[j].id == op.id ==> w.wire[r].ops[j] == op)
    && (w.wire[r].seen.Some? ==> Current(w.wire[r]).task.Some?)
    && Doable(w.tables, op) && op.id !in w.tables.operations && TaskOf(w.tables, op).qty > 0
  }

  lemma CalledInTurn(w: World, r: Id, op: Operation)
    requires OnItsWay(w, r, op, 0) && w.wire[r].seen.Some? && R.Executable(TaskOf(w.tables, op).status)
    requires S.Qty(w.tables.stock.balances, Origin(TaskOf(w.tables, op))) >= TaskOf(w.tables, op).qty
    ensures op.id in Next(w, Call(r)).tables.operations
  {
    ReplenishingFits(w.tables.stock, op.task.value, TaskOf(w.tables, op));
    assert Current(w.wire[r]) == op;
  }

  lemma LookedAt(w: World, r: Id, op: Operation)
    requires OnItsWay(w, r, op, 0) && w.wire[r].seen.None?
    ensures var w' := Next(w, Look(r));
            OnItsWay(w', r, op, 0) && w'.wire[r].seen.Some? && w'.tables == w.tables
  {
    assert Current(w.wire[r]) == op;
  }

  lemma WithStockItApplies(w: World, r: Id, op: Operation) returns (more: seq<Step>)
    requires OnItsWay(w, r, op, 0) && R.Executable(TaskOf(w.tables, op).status)
    requires S.Qty(w.tables.stock.balances, Origin(TaskOf(w.tables, op))) >= TaskOf(w.tables, op).qty
    ensures op.id in Through(w, more).tables.operations
  {
    if w.wire[r].seen.Some? {
      CalledInTurn(w, r, op);
      ThroughOne(w, Call(r), []);
      more := [Call(r)] + [];
    } else {
      LookedAt(w, r, op);
      CalledInTurn(Next(w, Look(r)), r, op);
      ThroughOne(w, Look(r), [Call(r)] + []);
      ThroughOne(Next(w, Look(r)), Call(r), []);
      more := [Look(r)] + ([Call(r)] + []);
    }
  }

  /** Only the stock changes. */
  lemma MovedElsewhere(w: World, r: Id, op: Operation, d: nat, m: S.Movement)
    requires OnItsWay(w, r, op, d) && !m.movementType.Reposicao?
    ensures var w' := Next(w, Elsewhere(R.OtherMovement(m)));
            OnItsWay(w', r, op, d) && w' == w.(tables := w.tables.(stock := S.Step(w.tables.stock, m)))
  {
  }

  lemma SuppliedItApplies(w: World, r: Id, op: Operation) returns (more: seq<Step>)
    requires OnItsWay(w, r, op, 0) && R.Executable(TaskOf(w.tables, op).status)
    ensures op.id in Through(w, more).tables.operations
  {
    var task := TaskOf(w.tables, op);
    var here := S.Qty(w.tables.stock.balances, Origin(task));
    if here >= task.qty {
      more := WithStockItApplies(w, r, op);
    } else {
      var m := Supply(task, task.qty - here);
      MovedElsewhere(w, r, op, 0, m);
      SupplyArrives(w.tables.stock, task, task.qty - here);
      var rest := WithStockItApplies(Next(w, Elsewhere(R.OtherMovement(m))), r, op);
      ThroughOne(w, Elsewhere(R.OtherMovement(m)), rest);
      more := [Elsewhere(R.OtherMovement(m))] + rest;
    }
  }

  lemma AssignedElsewhere(w: World, r: Id, op: Operation, d: nat)
    requires OnItsWay(w, r, op, d) && TaskOf(w.tables, op).status.Created?
    ensures var w' := Next(w, Elsewhere(R.Assigns(op.task.value)));
            OnItsWay(w', r, op, d) && TaskOf(w'.tables, op).status.Assigned?
  {
  }

  lemma InItsTurnItApplies(w: World, r: Id, op: Operation) returns (more: seq<Step>)
    requires OnItsWay(w, r, op, 0)
    ensures op.id in Through(w, more).tables.operations
  {
    if TaskOf(w.tables, op).status.Created? {
      AssignedElsewhere(w, r, op, 0);
      var rest := SuppliedItApplies(Next(w, Elsewhere(R.Assigns(op.task.value))), r, op);
      ThroughOne(w, Elsewhere(R.Assigns(op.task.value)), rest);
      more := [Elsewhere(R.Assigns(op.task.value))] + rest;
    } else {
      more := SuppliedItApplies(w, r, op);
    }
  }

  // ---- Letting the operations before it pass ------------------------------------------------

  /** With nothing at its origin, another operation cannot finish the task. */
  lemma OtherExecutionKeepsDoable(t: R.Tables, c: Operation, op: Operation)
    requires Doable(t, op) && op.id !in t.operations && TaskOf(t, op).qty > 0 && c.id != op.id && c.task.Some?
    requires S.Qty(t.stock.balances, Origin(TaskOf(t, op))) <= 0
    ensures var t' := R.Executed(t, c.id, c.task.value, c.scan).tables;
            Doable(t', op) && op.id !in t'.operations && TaskOf(t', op).qty > 0
  {
    ReplenishingFits(t.stock, op.task.value, TaskOf(t, op));
  }

  lemma OtherIsCalled(w: World, r: Id, op: Operation, d: nat)
    requires d > 0 && OnItsWay(w, r, op, d) && Current(w.wire[r]).id != op.id && w.wire[r].seen.Some?
    requires S.Qty(w.tables.stock.balances, Origin(TaskOf(w.tables, op))) <= 0
    ensures OnItsWay(Next(w, Call(r)), r, op, d - 1)
  {
    OtherExecutionKeepsDoable(w.tables, Current(w.wire[r]), op);
  }

  lemma OtherIsLookedAt(w: World, r: Id, op: Operation, d: nat)
    requires d > 0 && OnItsWay(w, r, op, d) && w.wire[r].seen.None?
    ensures var w' := Next(w, Look(r));
            && w'.tables == w.tables
            && (OnItsWay(w', r, op, d - 1)
                || (OnItsWay(w', r, op, d) && w'.wire[r].seen.Some? && Current(w'.wire[r]) == Current(w.wire[r])))
  {
  }

  lemma OtherPasses(w: World, r: Id, op: Operation, d: nat) returns (more: seq<Step>)
    requires d > 0 && OnItsWay(w, r, op, d) && Current(w.wire[r]).id != op.id
    requires S.Qty(w.tables.stock.balances, Origin(TaskOf(w.tables, op))) <= 0
    ensures OnItsWay(Through(w, more), r, op, d - 1)
  {
    if w.wire[r].seen.Some? {
      OtherIsCalled(w, r, op, d);
      ThroughOne(w, Call(r), []);
      more := [Call(r)] + [];
    } else {
      OtherIsLookedAt(w, r, op, d);
      var w' := Next(w, Look(r));
      if OnItsWay(w', r, op, d - 1) {
        ThroughOne(w, Look(r), []);
        more := [Look(r)] + [];
      } else {
        OtherIsCalled(w', r, op, d);
        ThroughOne(w, Look(r), [Call(r)] + []);
        ThroughOne(w', Call(r), []);
        more := [Look(r)] + ([Call(r)] + []);
      }
    }
  }

  lemma DrainedOtherPasses(w: World, r: Id, op: Operation, d: nat) returns (more: seq<Step>)
    requires d > 0 && OnItsWay(w, r, op, d) && Current(w.wire[r]).id != op.id
    ensures OnItsWay(Through(w, more), r, op, d - 1)
  {
    var task := TaskOf(w.tables, op);
    var here := S.Qty(w.tables.stock.balances, Origin(task));
    if here <= 0 {
      more := OtherPasses(w, r, op, d);
    } else {
      var m := Drain(task, here);
      MovedElsewhere(w, r, op, d, m);
      DrainEmpties(w.tables.stock, task);
      var rest := OtherPasses(Next(w, Elsewhere(R.OtherMovement(m))), r, op, d);
      ThroughOne(w, Elsewhere(R.OtherMovement(m)), rest);
      more := [Elsewhere(R.OtherMovement(m))] + rest;
    }
  }

  /** Some continuation lets the operations before it pass and then applies it. */
  lemma {:induction false} SomeContinuationApplies(w: World, r: Id, op: Operation, d: nat) returns (more: seq<Step>)
    requires OnItsWay(w, r, op, d)
    ensures op.id in Through(w, more).tables.operations
    decreases d
  {
    if d == 0 || Current(w.wire[r]).id == op.id {
      more := InItsTurnItApplies(w, r, op);
    } else {
      var before := DrainedOtherPasses(w, r, op, d);
      var rest := SomeContinuationApplies(Through(w, before), r, op, d - 1);
      ThroughConcat(w, before, rest);
      more := before + rest;
    }
  }

  // ---- The exact condition -------------------------------------------------------------------

  predicate TasksPositive(t: R.Tables) {
    forall id :: id in t.tasks ==> t.tasks[id].qty > 0
  }

  lemma StepKeepsTasksPositive(w: World, s: Step)
    requires TasksPositive(w.tables)
    ensures TasksPositive(Next(w, s).tables)
  {
  }

  lemma {:induction false} TasksOfRunArePositive(steps: seq<Step>)
    ensures TasksPositive(Run(steps).tables)
  {
    if steps != [] {
      TasksOfRunArePositive(steps[..|steps| - 1]);
      StepKeepsTasksPositive(Run(steps[..|steps| - 1]), steps[|steps| - 1]);
    }
  }

  lemma InFlightIsOnItsWay(steps: seq<Step>, k: nat) returns (r: Id, d: nat)
    requires k < |Run(steps).device.queue|
    requires var op := Run(steps).device.queue[k].op;
             InFlight(Run(steps), op) && Doable(Run(steps).tables, op) && op.id !in Run(steps).tables.operations
    ensures OnItsWay(Run(steps), r, Run(steps).device.queue[k].op, d)
  {
    var w, op := Run(steps), Run(steps).device.queue[k].op;
    InvOfRun(steps);
    TasksOfRunArePositive(steps);
    r :| r in w.wire && Pending(w.wire[r], op);
    var j :| |w.wire[r].results| <= j < |w.wire[r].ops| && w.wire[r].ops[j] == op;
    d := j - |w.wire[r].results|;
    assert RequestOk(w.tables, w.device.queue, w.wire[r]);
    assert Recorded(w.device.queue, op);
    forall i | 0 <= i < |w.wire[r].ops| && w.wire[r].ops[i].id == op.id ensures w.wire[r].ops[i] == op {
      SameIdSameOperation(w.device.queue, w.wire[r].ops[i], op);
    }
  }

  /** Some continuation of the run applies the operation. */
  ghost predicate MayStillApply(steps: seq<Step>, op: Operation) {
    exists more: seq<Step> :: op.id in Run(steps + more).tables.operations
  }

  /**
   An operation that the device has resolved without effect, on a task the server knows, can still take
   effect if and only if a copy of it is on its way, its task is open and its scan is right.
   */
  lemma MayStillApplyExactly(steps: seq<Step>, k: nat)
    requires k < |Run(steps).device.queue| && Run(steps).device.queue[k].status.Resolved?
    requires var op := Run(steps).device.queue[k].op;
             op.id !in Run(steps).tables.operations && Known(Run(steps).tables, op)
    ensures var op := Run(steps).device.queue[k].op;
            MayStillApply(steps, op) <==> InFlight(Run(steps), op) && Doable(Run(steps).tables, op)
  {
    var op := Run(steps).device.queue[k].op;
    if InFlight(Run(steps), op) && Doable(Run(steps).tables, op) {
      var r, d := InFlightIsOnItsWay(steps, k);
      var more := SomeContinuationApplies(Run(steps), r, op, d);
      RunThrough(steps, more);
      assert op.id in Run(steps + more).tables.operations;
    } else if MayStillApply(steps, op) {
      var more: seq<Step> :| op.id in Run(steps + more).tables.operations;
      NeitherApplies(steps, more, k);
    }
  }

  lemma NeitherApplies(steps: seq<Step>, more: seq<Step>, k: nat)
    requires k < |Run(steps).device.queue| && Run(steps).device.queue[k].status.Resolved?
    requires var op := Run(steps).device.queue[k].op;
             && op.id !in Run(steps).tables.operations && Known(Run(steps).tables, op)
             && !(InFlight(Run(steps), op) && Doable(Run(steps).tables, op))
    ensures Run(steps).device.queue[k].op.id !in Run(steps + more).tables.operations
  {
    if !InFlight(Run(steps), Run(steps).device.queue[k].op) {
      RejectedIsSafeOnceDelivered(steps, more, k);
    } else {
      UndoableNeverApplies(steps, more, k);
    }
  }
}
