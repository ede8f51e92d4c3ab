/** What counting does not give, and exactly when: lost effects, and callers that break the rules. */
module CountingLimits {
  import opened Common
  import opened StockEffects
  import S = StockLedger
  import opened Counting
  import opened CountingRuns
  import A = Approval

  // ---- Effects that are lost ---------------------------------------------------------------

  /**
   An approved adjustment can be applied exactly when the cell has a product and, to take stock away,
   the unpalletised key of the caller's warehouse holds that much. Stock on pallets never helps, nor
   does stock in the cell's own warehouse when the caller named another.
   */
  lemma AdjustmentSucceedsExactly(types: A.Catalogue, w: World, e: Id, h: Id, i: nat)
    requires Inv(types, w) && e in w.awaiting && w.exceptions[e].status.Approved?
    requires w.counts.Has(h, i) && w.counts.Cell(h, i).exception == Some(e)
    ensures e in w.callers
    ensures var c := w.counts.Cell(h, i);
            Attempt(w, e, h, i).Success? <==>
              c.product.Some? && (c.FinalQty() < c.systemQty ==> S.Qty(w.stock.balances, c.LegAt(w.callers[e])) >= c.systemQty - c.FinalQty())
  {
    var c := w.counts.Cell(h, i);
    assert CellOk(w.exceptions, w.stock.ledger, c) && LinkOk(w.exceptions, w.stock.ledger, c, e);
    if c.product.Some? {
      AdjustmentPosting(c, e, w.callers[e]);
    }
  }

  /** A decided exception whose effect was not applied and that no call will apply any more. */
  ghost predicate Stranded(w: World, e: Id, h: Id, i: nat) {
    && w.counts.Has(h, i) && w.counts.Cell(h, i).exception == Some(e) && w.counts.Cell(h, i).status.CellAdjusting?
    && e in w.exceptions && !A.Open(w.exceptions[e].status) && e !in w.awaiting
  }

  /** A cell that pends adjustment changes only when its own decision is applied. */
  lemma PendingCellUntouched(types: A.Catalogue, w: World, ev: Event, h: Id, i: nat, w': World)
    requires Inv(types, w) && Enabled(types, w, ev) && w' == Next(types, w, ev)
    requires w.counts.Has(h, i) && w.counts.Cell(h, i).status.CellAdjusting? && (ev.ApplyDecision? ==> w.counts.Cell(h, i).exception != Some(ev.e))
    ensures w'.counts.Has(h, i) && w'.counts.Cell(h, i) == w.counts.Cell(h, i)
  {
    if ev.Submit? {
      assert w.counts.Cell(ev.h, ev.i).Countable();
      SubmitReplaces(w.counts, ev.h, ev.i, ev.input, ev.exception);
    } else if ev.ApplyDecision? {
      ApplyReplaces(types, w, ev.e, ev.h, ev.i);
    } else {
      assert HeaderOk(w.counts.headers[h]);
      OtherStepsKeepTheCell(types, w, ev, h, i, w');
    }
  }

  lemma OtherStepsKeepTheCell(types: A.Catalogue, w: World, ev: Event, h: Id, i: nat, w': World)
    requires Enabled(types, w, ev) && w' == Next(types, w, ev) && !ev.Submit? && !ev.ApplyDecision?
    requires w.counts.Has(h, i) && !w.counts.headers[h].status.HeaderPlanned?
    ensures w'.counts.Has(h, i) && w'.counts.Cell(h, i) == w.counts.Cell(h, i)
  {
  }

  lemma ApplyReplaces(types: A.Catalogue, w: World, e: Id, h: Id, i: nat)
    requires Enabled(types, w, ApplyDecision(e, h, i))
    ensures exists c :: CellReplaced(w.counts, Next(types, w, ApplyDecision(e, h, i)).counts, h, i, c)
  {
    var c, s' := w.counts.Cell(h, i), Next(types, w, ApplyDecision(e, h, i)).counts;
    if Attempt(w, e, h, i).Failure? {
      assert w.counts.headers[h].cells[i := c] == w.counts.headers[h].cells;
      assert CellReplaced(w.counts, s', h, i, c);
    } else if w.exceptions[e].status.Approved? {
      FinishedReplaces(w.counts, h, i, c);
      assert CellReplaced(w.counts, s', h, i, c.(status := CellDone));
    } else {
      assert CellReplaced(w.counts, s', h, i,
                          c.(status := CellPending, exception := None, past := c.past + [c.rounds], rounds := []));
    }
  }

  /** Only a decision that was open can come to be awaited. */
  lemma AwaitedWasOpen(types: A.Catalogue, w: World, ev: Event, e: Id)
    requires e in Next(types, w, ev).awaiting && e !in w.awaiting
    ensures e in w.exceptions && A.Open(w.exceptions[e].status)
  {
  }

  lemma StepKeepsStranded(types: A.Catalogue, w: World, ev: Event, e: Id, h: Id, i: nat, w': World)
    requires Inv(types, w) && Stranded(w, e, h, i) && w' == Next(types, w, ev)
    ensures Stranded(w', e, h, i)
  {
    if Enabled(types, w, ev) {
      ExceptionsEvolve(types, w, ev);
      PendingCellUntouched(types, w, ev, h, i, w');
      if e in w'.awaiting {
        AwaitedWasOpen(types, w, ev, e);
      }
    }
  }

  /**
   An effect that is lost (the second transaction fails, or the exception expires or is decided
   elsewhere) is lost for good: the cell waits for ever, so its location stays frozen and its count open.
   */
  lemma {:induction false} StrandedForEver(types: A.Catalogue, w: World, events: seq<Event>, e: Id, h: Id, i: nat)
    requires forall t :: t in types ==> types[t].defaultSteps >= 1
    requires Inv(types, w) && DisciplinedRun(types, w, events) && Stranded(w, e, h, i)
    ensures var u := Run(types, w, events);
            && Stranded(u, e, h, i) && u.counts.headers[h].Started()
            && u.counts.Cell(h, i).location in u.counts.locations && u.counts.locations[u.counts.Cell(h, i).location].Inventory?
  {
    DisciplinedRunKeepsInv(types, w, events);
    if events != [] {
      var front := events[..|events| - 1];
      StrandedForEver(types, w, front, e, h, i);
      DisciplinedRunKeepsInv(types, w, front);
      StepKeepsStranded(types, Run(types, w, front), events[|events| - 1], e, h, i, Run(types, w, events));
    }
    StrandedIsStarted(types, Run(types, w, events), e, h, i);
  }

  lemma StrandedIsStarted(types: A.Catalogue, w: World, e: Id, h: Id, i: nat)
    requires Inv(types, w) && Stranded(w, e, h, i)
    ensures Unfinished(w.counts, h, i)
  {
    assert HeaderOk(w.counts.headers[h]);
  }

  // ---- Exactly when an effect is lost ------------------------------------------------------

  /** Cell `i` of count `h` pends the adjustment that exception `e` is about. */
  predicate PendingOn(w: World, e: Id, h: Id, i: nat) {
    w.counts.Has(h, i) && w.counts.Cell(h, i).exception == Some(e) && w.counts.Cell(h, i).status.CellAdjusting?
  }

  /**
   A decided adjustment fits: a rejection always does, a gain when the cell has a product, a loss when
   the unpalletised key of the caller's warehouse holds it, too.
   */
  predicate Fits(w: World, e: Id, h: Id, i: nat)
    requires PendingOn(w, e, h, i) && e in w.exceptions && e in w.callers
  {
    var c := w.counts.Cell(h, i);
    w.exceptions[e].status.Approved? ==>
      c.product.Some? && (c.FinalQty() < c.systemQty ==> S.Qty(w.stock.balances, c.LegAt(w.callers[e])) >= c.systemQty - c.FinalQty())
  }

  /**
   The step loses the effect: the call that made the decision dies before its attempt, the attempt
   does not fit, or the exception is closed by anything but a call that then attempts the effect.
   */
  predicate Loses(types: A.Catalogue, w: World, ev: Event, e: Id, h: Id, i: nat)
    requires PendingOn(w, e, h, i) && e in w.exceptions
  {
    || (ev == AbandonDecision(e) && e in w.awaiting)
    || (ev == ApplyDecision(e, h, i) && e in w.awaiting && e in w.callers && !Fits(w, e, h, i))
    || (ev.WorkflowCall? && e !in w.awaiting && e in A.Next(types, w.exceptions, ev.event)
        && !A.Open(A.Next(types, w.exceptions, ev.event)[e].status))
  }

  lemma AttemptFits(types: A.Catalogue, w: World, e: Id, h: Id, i: nat)
    requires Inv(types, w) && PendingOn(w, e, h, i) && e in w.exceptions && e in w.awaiting
    ensures e in w.callers && (Attempt(w, e, h, i).Success? <==> Fits(w, e, h, i))
  {
    if w.exceptions[e].status.Approved? {
      AdjustmentSucceedsExactly(types, w, e, h, i);
    }
  }

  lemma PendingIsKnown(types: A.Catalogue, w: World, e: Id, h: Id, i: nat)
    requires Inv(types, w) && PendingOn(w, e, h, i)
    ensures e in w.exceptions
  {
    assert CellOk(w.exceptions, w.stock.ledger, w.counts.Cell(h, i)) && LinkOk(w.exceptions, w.stock.ledger, w.counts.Cell(h, i), e);
  }

  /** A cell that pends adjustment, and is not stranded yet, is stranded by exactly the steps that lose its effect. */
  lemma StrandsExactly(types: A.Catalogue, w: World, ev: Event, e: Id, h: Id, i: nat)
    requires Inv(types, w) && PendingOn(w, e, h, i) && !Stranded(w, e, h, i)
    ensures e in w.exceptions
    ensures Stranded(Next(types, w, ev), e, h, i) <==> Loses(types, w, ev, e, h, i)
  {
    PendingIsKnown(types, w, e, h, i);
    if Enabled(types, w, ev) {
      ExceptionsEvolve(types, w, ev);
      if ev.ApplyDecision? && ev.e == e {
        AppliedToItsCell(types, w, ev, h, i);
        AttemptFits(types, w, e, h, i);
        AttemptStrands(types, w, e, h, i);
      } else {
        PendingCellUntouched(types, w, ev, h, i, Next(types, w, ev));
        OnlyClosingMatters(types, w, ev, e, Next(types, w, ev));
      }
    }
  }

  lemma AppliedToItsCell(types: A.Catalogue, w: World, ev: Event, h: Id, i: nat)
    requires Inv(types, w) && ev.ApplyDecision? && Enabled(types, w, ev) && PendingOn(w, ev.e, h, i)
    ensures ev.h == h && ev.i == i
  {
  }

  lemma AttemptStrands(types: A.Catalogue, w: World, e: Id, h: Id, i: nat)
    requires Inv(types, w) && PendingOn(w, e, h, i) && Enabled(types, w, ApplyDecision(e, h, i))
    ensures Stranded(Next(types, w, ApplyDecision(e, h, i)), e, h, i) <==> Attempt(w, e, h, i).Failure?
  {
    var w' := Next(types, w, ApplyDecision(e, h, i));
    if Attempt(w, e, h, i).Success? {
      if w.exceptions[e].status.Approved? {
        FinishedReplaces(w.counts, h, i, w.counts.Cell(h, i));
        assert w'.counts.Cell(h, i).status.CellDone?;
      } else {
        assert w'.counts.Cell(h, i).exception.None?;
      }
    }
  }

  /** A call that closes an adjustment goes on to await its effect. */
  lemma DecisionIsAwaited(types: A.Catalogue, w: World, ev: Event, e: Id, w': World)
    requires Enabled(types, w, ev) && ev.Decide? && w' == Next(types, w, ev)
    requires e in w.exceptions && w.exceptions[e].kind == ADJUSTMENT_KIND && (A.Open(w.exceptions[e].status) || e in w.awaiting)
    ensures e in w'.exceptions && (A.Open(w'.exceptions[e].status) || e in w'.awaiting)
  {
  }

  lemma OtherStepsDecideNothing(types: A.Catalogue, w: World, ev: Event, e: Id, w': World)
    requires Enabled(types, w, ev) && !ev.Decide? && !ev.WorkflowCall? && w' == Next(types, w, ev) && e in w.exceptions
    ensures e in w'.exceptions && w'.exceptions[e] == w.exceptions[e]
    ensures e in w'.awaiting <==> e in w.awaiting && (ev.ApplyDecision? ==> ev.e != e) && ev != AbandonDecision(e)
  {
  }

  /** Of the steps that do not apply it, these close the exception with nobody left to apply it. */
  lemma OnlyClosingMatters(types: A.Catalogue, w: World, ev: Event, e: Id, w': World)
    requires Inv(types, w) && Enabled(types, w, ev) && e in w.exceptions && w.exceptions[e].kind == ADJUSTMENT_KIND
    requires A.Open(w.exceptions[e].status) || e in w.awaiting
    requires (ev.ApplyDecision? ==> ev.e != e) && w' == Next(types, w, ev)
    ensures e in w'.exceptions
    ensures !A.Open(w'.exceptions[e].status) && e !in w'.awaiting <==>
              || (ev == AbandonDecision(e) && e in w.awaiting)
              || (ev.WorkflowCall? && e !in w.awaiting && !A.Open(w'.exceptions[e].status))
  {
    if ev.Decide? {
      DecisionIsAwaited(types, w, ev, e, w');
    } else if ev.WorkflowCall? {
      ExceptionsEvolve(types, w, ev);
      assert w'.awaiting == w.awaiting;
    } else {
      OtherStepsDecideNothing(types, w, ev, e, w');
      assert e in w.awaiting ==> !A.Open(w.exceptions[e].status);
    }
  }

  lemma RoundOpensAnotherException(types: A.Catalogue, w: World, ev: Event, e: Id, h: Id, i: nat)
    requires ev.Submit? && Enabled(types, w, ev) && e in w.exceptions && !PendingOn(w, e, h, i)
    ensures !PendingOn(Next(types, w, ev), e, h, i)
  {
    SubmitReplaces(w.counts, ev.h, ev.i, ev.input, ev.exception);
  }

  lemma AppliedCellIsSettled(types: A.Catalogue, w: World, e: Id, h: Id, i: nat, w': World)
    requires Enabled(types, w, ApplyDecision(e, h, i)) && w' == Next(types, w, ApplyDecision(e, h, i))
    requires w'.counts.Has(h, i) && w'.counts.Cell(h, i).status.CellAdjusting?
    ensures w'.counts.Cell(h, i) == w.counts.Cell(h, i)
  {
    if Attempt(w, e, h, i).Success? && w.exceptions[e].status.Approved? {
      FinishedReplaces(w.counts, h, i, w.counts.Cell(h, i));
    }
  }

  lemma ApplyingOpensNone(types: A.Catalogue, w: World, ev: Event, e: Id, h: Id, i: nat, w': World)
    requires ev.ApplyDecision? && Enabled(types, w, ev) && w' == Next(types, w, ev) && !PendingOn(w, e, h, i)
    ensures !PendingOn(w', e, h, i)
  {
    ApplyReplaces(types, w, ev.e, ev.h, ev.i);
    if PendingOn(w', e, h, i) && h == ev.h && i == ev.i {
      AppliedCellIsSettled(types, w, ev.e, h, i, w');
    }
  }

  lemma OthersOpenNone(types: A.Catalogue, w: World, ev: Event, e: Id, h: Id, i: nat, w': World)
    requires Enabled(types, w, ev) && w' == Next(types, w, ev) && !ev.Submit? && !ev.ApplyDecision? && !PendingOn(w, e, h, i)
    ensures !PendingOn(w', e, h, i)
  {
  }

  /** An exception that no cell pends on is never pended on again. */
  lemma NeverPendingAgain(types: A.Catalogue, w: World, ev: Event, e: Id, h: Id, i: nat)
    requires Inv(types, w) && e in w.exceptions && !PendingOn(w, e, h, i)
    ensures !PendingOn(Next(types, w, ev), e, h, i)
  {
    if Enabled(types, w, ev) {
      if ev.Submit? {
        RoundOpensAnotherException(types, w, ev, e, h, i);
      } else if ev.ApplyDecision? {
        ApplyingOpensNone(types, w, ev, e, h, i, Next(types, w, ev));
      } else {
        OthersOpenNone(types, w, ev, e, h, i, Next(types, w, ev));
      }
    }
  }

  /** Step `n` of a run loses the effect. */
  ghost predicate LosesAt(types: A.Catalogue, w: World, events: seq<Event>, n: nat, e: Id, h: Id, i: nat)
    requires n < |events|
  {
    var u := Run(types, w, events[..n]);
    PendingOn(u, e, h, i) && e in u.exceptions && Loses(types, u, events[n], e, h, i)
  }

  /** Over a whole run, a cell ends up stranded exactly when some step loses its effect. */
  lemma {:induction false} StrandedExactly(types: A.Catalogue, w: World, events: seq<Event>, e: Id, h: Id, i: nat)
    requires forall t :: t in types ==> types[t].defaultSteps >= 1
    requires Inv(types, w) && DisciplinedRun(types, w, events) && e in w.exceptions && !Stranded(w, e, h, i)
    ensures Stranded(Run(types, w, events), e, h, i) <==> exists n :: 0 <= n < |events| && LosesAt(types, w, events, n, e, h, i)
  {
    if events != [] {
      var m := |events| - 1;
      var front, u := events[..m], Run(types, w, events[..m]);
      StrandedExactly(types, w, front, e, h, i);
      DisciplinedRunKeepsInv(types, w, front);
      ExceptionsKept(types, w, front, e);
      LosesEarlier(types, w, events, e, h, i);
      if Stranded(u, e, h, i) {
        StepKeepsStranded(types, u, events[m], e, h, i, Next(types, u, events[m]));
      } else if PendingOn(u, e, h, i) {
        StrandsExactly(types, u, events[m], e, h, i);
      } else {
        NeverPendingAgain(types, u, events[m], e, h, i);
      }
    }
  }

  lemma {:induction false} ExceptionsKept(types: A.Catalogue, w: World, events: seq<Event>, e: Id)
    requires e in w.exceptions
    ensures e in Run(types, w, events).exceptions
  {
    if events != [] {
      ExceptionsKept(types, w, events[..|events| - 1], e);
      ExceptionsEvolve(types, Run(types, w, events[..|events| - 1]), events[|events| - 1]);
    }
  }

  lemma LosesEarlier(types: A.Catalogue, w: World, events: seq<Event>, e: Id, h: Id, i: nat)
    requires events != []
    ensures var m := |events| - 1;
            (exists n :: 0 <= n < |events| && LosesAt(types, w, events, n, e, h, i)) <==>
              (exists n :: 0 <= n < m && LosesAt(types, w, events[..m], n, e, h, i)) || LosesAt(types, w, events, m, e, h, i)
  {
    var m := |events| - 1;
    if n :| 0 <= n < |events| && LosesAt(types, w, events, n, e, h, i) {
      if n < m {
        assert events[..m][..n] == events[..n] && LosesAt(types, w, events[..m], n, e, h, i);
      }
    }
    if n :| 0 <= n < m && LosesAt(types, w, events[..m], n, e, h, i) {
      assert events[..m][..n] == events[..n] && LosesAt(types, w, events, n, e, h, i);
    }
  }

  /** A decided effect that does not fit at any point of a run is not applied in it: it is still awaited, or the cell is stranded. */
  lemma {:induction false} WhatNeverFitsStrands(types: A.Catalogue, w: World, events: seq<Event>, e: Id, h: Id, i: nat)
    requires forall t :: t in types ==> types[t].defaultSteps >= 1
    requires Inv(types, w) && DisciplinedRun(types, w, events) && PendingOn(w, e, h, i) && e in w.exceptions && e in w.awaiting
    requires forall n :: 0 <= n <= |events| ==> Unfit(Run(types, w, events[..n]), e, h, i)
    ensures var u := Run(types, w, events);
            PendingOn(u, e, h, i) && (e in u.awaiting || Stranded(u, e, h, i))
  {
    if events != [] {
      var m := |events| - 1;
      var front, u := events[..m], Run(types, w, events[..m]);
      forall n | 0 <= n <= |front| ensures Unfit(Run(types, w, front[..n]), e, h, i) {
        assert front[..n] == events[..n];
      }
      WhatNeverFitsStrands(types, w, front, e, h, i);
      DisciplinedRunKeepsInv(types, w, front);
      assert events[..m] == front && Unfit(u, e, h, i);
      if Stranded(u, e, h, i) {
        StepKeepsStranded(types, u, events[m], e, h, i, Next(types, u, events[m]));
      } else {
        StillAwaitedOrStranded(types, u, events[m], e, h, i);
      }
    }
  }

  /** While the cell pends, its decided effect does not fit. */
  predicate Unfit(w: World, e: Id, h: Id, i: nat) {
    PendingOn(w, e, h, i) && e in w.exceptions && e in w.callers ==> !Fits(w, e, h, i)
  }

  lemma StillAwaitedOrStranded(types: A.Catalogue, w: World, ev: Event, e: Id, h: Id, i: nat)
    requires Inv(types, w) && PendingOn(w, e, h, i) && e in w.exceptions && e in w.awaiting && e in w.callers && !Fits(w, e, h, i)
    ensures var u := Next(types, w, ev);
            PendingOn(u, e, h, i) && (e in u.awaiting || Stranded(u, e, h, i))
  {
    StrandsExactly(types, w, ev, e, h, i);
    if Enabled(types, w, ev) {
      ExceptionsEvolve(types, w, ev);
      if ev.ApplyDecision? && ev.e == e {
        AppliedToItsCell(types, w, ev, h, i);
      } else {
        PendingCellUntouched(types, w, ev, h, i, Next(types, w, ev));
      }
    }
  }

  // ---- A loss that strands its cell, and a gain that lands elsewhere ------------------------

  /** Ten units arrive at location 7, on pallet 3. */
  const ON_PALLET := S.Movement.Movement(
    1, 1, None, Putaway, 1, None, 10, None, None, Some(7), Some(3), Some(Available), None, None, None, None, false)

  const ONE_STEP: A.Catalogue := map[ADJUSTMENT_KIND := A.ExceptionType(1, false, 0)]

  const ONE_LOCATION: map<Id, LocationStatus> := map[7 := Active]

  const PLACE := Scope(1, 1, 7, Some(1), None, 10)

  function CountedBy(user: Id, qty: int): RoundInput {
    RoundInput(1, qty, user, false, None, 0, [])
  }

  /** Two operators count `qty` where the system holds ten; a manager approves from warehouse `at`; the call applies it. */
  predicate CountedAndApproved(events: seq<Event>, qty: int, at: Id) {
    && |events| == 7 && qty >= 0 && qty != 10
    && events[0] == OtherMovement(ON_PALLET) && events[1] == PlanCount(1, 1, [PLACE]) && events[2] == StartCount(1)
    && events[3] == Submit(1, 0, CountedBy(100, qty), 5) && events[4] == Submit(1, 0, CountedBy(101, qty), 5)
    && events[5] == Decide(5, at, 102, A.Approve, A.Standing(true, [])) && events[6] == ApplyDecision(5, 1, 0)
  }

  function After(events: seq<Event>, n: nat): World
    requires n <= |events|
  {
    Run(ONE_STEP, Start(ONE_LOCATION), events[..n])
  }

  lemma AfterGoesOn(events: seq<Event>, n: nat)
    requires n < |events|
    ensures After(events, n + 1) == Next(ONE_STEP, After(events, n), events[n])
  {
    assert events[..n + 1][..n] == events[..n];
  }

  lemma AfterAll(events: seq<Event>)
    ensures After(events, |events|) == Run(ONE_STEP, Start(ONE_LOCATION), events)
  {
    assert events[..|events|] == events;
  }

  /** One count of one cell; everything the system holds of its content is on a pallet. */
  predicate Stage(w: World, status: HeaderStatus, c: Cell) {
    && w.counts.headers == map[1 := Header(status, [c], None)] && 7 in w.counts.locations && c.product.Some?
    && S.Qty(w.stock.balances, c.LegAt(1)) == 0 && S.Qty(w.stock.balances, c.LegAt(2)) == 0
  }

  function CellAfter(status: CellStatus, rounds: seq<Round>): Cell {
    FreshCell(1, PLACE, status).(rounds := rounds)
  }

  lemma StockIsOnThePallet()
    ensures S.Applied(S.EMPTY_STOCK, ON_PALLET).Success?
    ensures S.Qty(S.Step(S.EMPTY_STOCK, ON_PALLET).balances, CellAfter(CellPending, []).LegAt(1)) == 0
    ensures S.Qty(S.Step(S.EMPTY_STOCK, ON_PALLET).balances, CellAfter(CellPending, []).LegAt(2)) == 0
  {
    var leg := S.Leg(S.Key(1, 1, 1, None, Some(7), Some(3)), Available);
    assert S.PostingOf(ON_PALLET).value.credit == Some(leg) && S.PostingOf(ON_PALLET).value.debit.None?;
  }

  lemma OnlyLocation(c: Cell)
    ensures Locations([c]) == {c.location}
  {
    assert [c][0].location in Locations([c]);
  }

  function Supplied(): World {
    Start(ONE_LOCATION).(stock := S.Step(S.EMPTY_STOCK, ON_PALLET))
  }

  lemma StockHasArrived(events: seq<Event>, qty: int, at: Id)
    requires CountedAndApproved(events, qty, at)
    ensures After(events, 1) == Supplied()
  {
    assert events[..0] == [];
    AfterGoesOn(events, 0);
  }

  lemma CountIsPlanned()
    ensures Next(ONE_STEP, Supplied(), PlanCount(1, 1, [PLACE])) == Supplied().(
              counts := Counts(map[1 := Header(HeaderPlanned, [CellAfter(CellPending, [])], None)], ONE_LOCATION))
  {
    assert PlannedCells(1, [PLACE]) == [CellAfter(CellPending, [])];
  }

  lemma CountStarts()
    ensures var w := Supplied().(counts := Counts(map[1 := Header(HeaderPlanned, [CellAfter(CellPending, [])], None)], ONE_LOCATION));
            var w' := Next(ONE_STEP, w, StartCount(1));
            Stage(w', HeaderInProgress, CellAfter(CellCounting, [])) && w'.exceptions == map[]
  {
    StockIsOnThePallet();
    OnlyLocation(CellAfter(CellPending, []));
    assert AllCounting([CellAfter(CellPending, [])]) == [CellAfter(CellCounting, [])];
  }

  lemma CountIsStarted(events: seq<Event>, qty: int, at: Id)
    requires CountedAndApproved(events, qty, at)
    ensures Stage(After(events, 3), HeaderInProgress, CellAfter(CellCounting, [])) && After(events, 3).exceptions == map[]
  {
    StockHasArrived(events, qty, at);
    AfterGoesOn(events, 1);
    CountIsPlanned();
    AfterGoesOn(events, 2);
    CountStarts();
  }

  function First(qty: int): Round {
    Round(1, qty, 100, false)
  }

  function Second(qty: int): Round {
    Round(2, qty, 101, false)
  }

  lemma FirstRoundCounted(w: World, qty: int)
    requires Stage(w, HeaderInProgress, CellAfter(CellCounting, [])) && w.exceptions == map[] && qty >= 0 && qty != 10
    ensures var w' := Next(ONE_STEP, w, Submit(1, 0, CountedBy(100, qty), 5));
            Stage(w', HeaderInProgress, CellAfter(CellCounting, [First(qty)])) && w'.exceptions == map[]
  {
    var c := WithRound(CellAfter(CellCounting, []), CountedBy(100, qty));
    assert c.rounds == [First(qty)];
    assert w.counts.headers[1].cells[0 := c] == [c];
  }

  /** The adjustment of the difference, opened by the second operator. */
  function Difference(qty: int): A.Exception {
    A.Exception(ADJUSTMENT_KIND, 1, 1, Some(Abs(qty - 10)), None, 101, 0, A.Escalated, 1, [])
  }

  function Diverging(qty: int): Cell {
    CellAfter(CellAdjusting, [First(qty), Second(qty)]).(exception := Some(5))
  }

  lemma SecondRoundDiverges(w: World, qty: int)
    requires Stage(w, HeaderInProgress, CellAfter(CellCounting, [First(qty)])) && w.exceptions == map[] && qty >= 0 && qty != 10
    ensures var w' := Next(ONE_STEP, w, Submit(1, 0, CountedBy(101, qty), 5));
            Stage(w', HeaderAdjusting, Diverging(qty)) && w'.exceptions == map[5 := Difference(qty)]
  {
    var c := WithRound(CellAfter(CellCounting, [First(qty)]), CountedBy(101, qty));
    assert c.rounds == [First(qty), Second(qty)] && c.Outcome() == Diverges(qty - 10);
    assert A.Created(ONE_STEP, [], AdjustmentRequest(c, CountedBy(101, qty), qty - 10)) == Success(Difference(qty));
    var d := c.(status := CellAdjusting, exception := Some(5));
    assert w.counts.headers[1].cells[0 := d] == [d];
  }

  lemma DifferenceIsApproved(w: World, qty: int, at: Id)
    requires w.exceptions == map[5 := Difference(qty)]
    ensures var w' := Next(ONE_STEP, w, Decide(5, at, 102, A.Approve, A.Standing(true, [])));
            && w' == w.(exceptions := w'.exceptions, awaiting := w.awaiting + {5}, callers := w.callers[5 := at])
            && 5 in w'.exceptions && w'.exceptions[5].status.Approved?
  {
  }

  lemma DecisionAwaitsItsEffect(events: seq<Event>, qty: int, at: Id)
    requires CountedAndApproved(events, qty, at)
    ensures var w := After(events, 6);
            && Stage(w, HeaderAdjusting, Diverging(qty)) && 5 in w.awaiting && 5 in w.callers && w.callers[5] == at
            && 5 in w.exceptions && w.exceptions[5].status.Approved?
  {
    DifferenceIsOpened(events, qty, at);
    AfterGoesOn(events, 5);
    DifferenceIsApproved(After(events, 5), qty, at);
  }

  lemma DifferenceIsOpened(events: seq<Event>, qty: int, at: Id)
    requires CountedAndApproved(events, qty, at)
    ensures Stage(After(events, 5), HeaderAdjusting, Diverging(qty)) && After(events, 5).exceptions == map[5 := Difference(qty)]
  {
    CountIsStarted(events, qty, at);
    AfterGoesOn(events, 3);
    FirstRoundCounted(After(events, 3), qty);
    AfterGoesOn(events, 4);
    SecondRoundDiverges(After(events, 4), qty);
  }

  lemma LossIsRefused(w: World)
    requires Stage(w, HeaderAdjusting, Diverging(8)) && 5 in w.awaiting && 5 in w.callers && w.callers[5] == 1
    requires 5 in w.exceptions && w.exceptions[5].status.Approved?
    ensures Stranded(Next(ONE_STEP, w, ApplyDecision(5, 1, 0)), 5, 1, 0)
  {
    AdjustmentPosting(w.counts.Cell(1, 0), 5, 1);
  }

  /** In that run an approved loss of two units is refused, although the stock is there, and its cell is stranded. */
  lemma PalletisedLossStrands(events: seq<Event>)
    requires CountedAndApproved(events, 8, 1)
    ensures Stranded(Run(ONE_STEP, Start(ONE_LOCATION), events), 5, 1, 0)
  {
    DecisionAwaitsItsEffect(events, 8, 1);
    AfterGoesOn(events, 6);
    LossIsRefused(After(events, 6));
    AfterAll(events);
  }

  lemma GainFits(s: S.Stock)
    requires S.Qty(s.balances, Diverging(13).LegAt(1)) == 0 && S.Qty(s.balances, Diverging(13).LegAt(2)) == 0
    ensures S.Applied(s, AdjustmentMovement(Diverging(13), 5, 2)).Success?
    ensures var m := S.Applied(s, AdjustmentMovement(Diverging(13), 5, 2)).value.balances;
            S.Qty(m, Diverging(13).LegAt(1)) == 0 && S.Qty(m, Diverging(13).LegAt(2)) == 3
  {
    var c := Diverging(13);
    AdjustmentPosting(c, 5, 2);
    AdjustmentMovesTheDifference(s, c, 5, 2, c.LegAt(1));
    AdjustmentMovesTheDifference(s, c, 5, 2, c.LegAt(2));
  }

  lemma GainIsPosted(w: World, w': World)
    requires Stage(w, HeaderAdjusting, Diverging(13)) && 5 in w.awaiting && 5 in w.callers && w.callers[5] == 2
    requires 5 in w.exceptions && w.exceptions[5].status.Approved? && w' == Next(ONE_STEP, w, ApplyDecision(5, 1, 0))
    ensures w'.counts == Finished(w.counts, 1, 0, Diverging(13))
    ensures S.Qty(w'.stock.balances, Diverging(13).LegAt(1)) == 0 && S.Qty(w'.stock.balances, Diverging(13).LegAt(2)) == 3
  {
    assert w.counts.Cell(1, 0) == Diverging(13);
    GainFits(w.stock);
  }

  /** The cell of warehouse 1 is done with a gain of three, all of it credited to warehouse 2. */
  predicate GainLanded(w: World, c: Cell) {
    && w.counts.Has(1, 0) && w.counts.Cell(1, 0) == c && c.status.CellDone? && c.product.Some?
    && c.warehouse == 1 && c.FinalQty() == c.systemQty + 3
    && S.Qty(w.stock.balances, c.LegAt(1)) == 0 && S.Qty(w.stock.balances, c.LegAt(2)) == 3
  }

  lemma PostedGainLands(w: World, w': World)
    requires Stage(w, HeaderAdjusting, Diverging(13)) && w'.counts == Finished(w.counts, 1, 0, Diverging(13))
    requires S.Qty(w'.stock.balances, Diverging(13).LegAt(1)) == 0 && S.Qty(w'.stock.balances, Diverging(13).LegAt(2)) == 3
    ensures GainLanded(w', Diverging(13).(status := CellDone))
  {
    FinishedReplaces(w.counts, 1, 0, Diverging(13));
  }

  lemma ApprovedGainLands(w: World, w': World)
    requires Stage(w, HeaderAdjusting, Diverging(13)) && 5 in w.awaiting && 5 in w.callers && w.callers[5] == 2
    requires 5 in w.exceptions && w.exceptions[5].status.Approved? && w' == Next(ONE_STEP, w, ApplyDecision(5, 1, 0))
    ensures GainLanded(w', Diverging(13).(status := CellDone))
  {
    GainIsPosted(w, w');
    PostedGainLands(w, w');
  }

  /** When warehouse 2 approves a gain of three units found in warehouse 1, the cell is done and they are credited to warehouse 2. */
  lemma GainLandsAtTheCaller(events: seq<Event>)
    requires CountedAndApproved(events, 13, 2)
    ensures GainLanded(Run(ONE_STEP, Start(ONE_LOCATION), events), Diverging(13).(status := CellDone))
  {
    DecisionAwaitsItsEffect(events, 13, 2);
    AfterGoesOn(events, 6);
    ApprovedGainLands(After(events, 6), After(events, 7));
    AfterAll(events);
  }

  // ---- Exactly what the callers have to see to ---------------------------------------------

  /** A location under count is busy for a started count, whatever else happens. */
  lemma BrokenByFreezing(types: A.Catalogue, w: World, ev: Event, w': World)
    requires Inv(types, w) && ev.FreezeSingle? && Enabled(types, w, ev) && UnderCount(w.counts, ev.place.location)
    requires w' == Next(types, w, ev)
    ensures !LocationsOk(w'.counts)
  {
    assert BusyAt(w.counts, ev.place.location);
    var h, i :| Unfinished(w.counts, h, i) && w.counts.Cell(h, i).location == ev.place.location;
    assert Unfinished(w'.counts, h, i) && Unfinished(w'.counts, ev.h, 0);
  }

  lemma BrokenByDeactivating(types: A.Catalogue, w: World, ev: Event, w': World)
    requires Inv(types, w) && ev.Deactivate? && Enabled(types, w, ev) && UnderCount(w.counts, ev.l) && w' == Next(types, w, ev)
    ensures !LocationsOk(w'.counts)
  {
    assert BusyAt(w.counts, ev.l);
    var h, i :| Unfinished(w.counts, h, i) && w.counts.Cell(h, i).location == ev.l;
    assert Unfinished(w'.counts, h, i);
  }

  /** A stray round either leaves a header that has not started with a counted cell, or releases a location under count. */
  lemma BrokenByStrayRound(types: A.Catalogue, w: World, ev: Event, w': World)
    requires Inv(types, w) && ev.Submit? && Enabled(types, w, ev) && !Disciplined(w, ev) && w' == Next(types, w, ev)
    ensures !LocationsOk(w'.counts) || !HeadersOk(w'.counts)
  {
    var h, i := ev.h, ev.i;
    UnstartedIsUntouched(types, w, h, i);
    var c := WithRound(w.counts.Cell(h, i), ev.input);
    if ev.input.qty != w.counts.Cell(h, i).systemQty {
      assert w'.counts.headers[h].cells[i].status.CellCounting?;
      assert !HeaderOk(w'.counts.headers[h]);
    } else if |w.counts.headers[h].cells| == 1 {
      SettlingCompletes(w.counts, h, i, c);
      assert BusyAt(w.counts, c.location);
      var k, j :| Unfinished(w.counts, k, j) && w.counts.Cell(k, j).location == c.location;
      assert Unfinished(w'.counts, k, j);
    } else {
      ManyCellsStayOpen(w.counts, h, i, c);
      assert !HeaderOk(w'.counts.headers[h]);
    }
  }

  lemma ManyCellsStayOpen(s: Counts, h: Id, i: nat, c: Cell)
    requires s.Has(h, i) && |s.headers[h].cells| > 1
    requires forall j :: 0 <= j < |s.headers[h].cells| ==> s.headers[h].cells[j].status.CellPending?
    ensures var s' := Finished(s, h, i, c);
            s'.headers[h].status == s.headers[h].status && s'.Has(h, i) && s'.headers[h].cells[i].status.CellDone?
  {
    var t := s.WithCell(h, i, c.(status := CellDone));
    var other := if i == 0 then 1 else 0;
    assert t.headers[h].cells[other] == s.headers[h].cells[other];
    assert !AllDone(t.headers[h]);
  }

  /** From a sound state, a step leads to a sound state if and only if the callers saw to it. */
  lemma DisciplineIsExact(types: A.Catalogue, w: World, ev: Event)
    requires forall t :: t in types ==> types[t].defaultSteps >= 1
    requires Inv(types, w) && Enabled(types, w, ev)
    ensures Inv(types, Next(types, w, ev)) <==> Disciplined(w, ev)
  {
    if Disciplined(w, ev) {
      StepKeepsInv(types, w, ev);
    } else if ev.Submit? {
      BrokenByStrayRound(types, w, ev, Next(types, w, ev));
    } else if ev.FreezeSingle? {
      BrokenByFreezing(types, w, ev, Next(types, w, ev));
    } else {
      BrokenByDeactivating(types, w, ev, Next(types, w, ev));
    }
  }

  /** Sound after `n` steps. */
  ghost predicate SoundAt(types: A.Catalogue, w: World, events: seq<Event>, n: nat)
    requires n <= |events|
  {
    Inv(types, Run(types, w, events[..n]))
  }

  ghost predicate SoundThroughout(types: A.Catalogue, w: World, events: seq<Event>) {
    forall n: nat :: n <= |events| ==> SoundAt(types, w, events, n)
  }

  lemma SoundInFront(types: A.Catalogue, w: World, events: seq<Event>, m: nat, n: nat)
    requires n <= m <= |events|
    ensures SoundAt(types, w, events[..m], n) == SoundAt(types, w, events, n)
  {
    assert events[..m][..n] == events[..n];
  }

  lemma SoundOneMore(types: A.Catalogue, w: World, events: seq<Event>, m: nat)
    requires |events| == m + 1
    ensures SoundThroughout(types, w, events) <==>
            SoundThroughout(types, w, events[..m]) && SoundAt(types, w, events, m + 1)
  {
    forall n: nat | n <= m ensures SoundAt(types, w, events[..m], n) == SoundAt(types, w, events, n) {
      SoundInFront(types, w, events, m, n);
    }
  }

  /** A run passes through sound states alone if and only if it is disciplined. */
  lemma {:induction false} DisciplinedRunsAreExact(types: A.Catalogue, w: World, events: seq<Event>)
    requires forall t :: t in types ==> types[t].defaultSteps >= 1
    requires Inv(types, w)
    ensures SoundThroughout(types, w, events) <==> DisciplinedRun(types, w, events)
  {
    if events == [] {
      assert events[..0] == events;
    } else {
      var m := |events| - 1;
      DisciplinedRunsAreExact(types, w, events[..m]);
      SoundOneMore(types, w, events, m);
      assert events[..m + 1] == events;
      if DisciplinedRun(types, w, events[..m]) {
        DisciplinedRunKeepsInv(types, w, events[..m]);
        if Enabled(types, Run(types, w, events[..m]), events[m]) {
          DisciplineIsExact(types, Run(types, w, events[..m]), events[m]);
        }
      }
    }
  }

  /**
   A first round on a planned header: it completes a header whose only cell it settles; otherwise the
   header can still be started, and the start leaves the cell open but refusing every round exactly when
   the round matched.
   */
  lemma RoundBeforeStartExactly(s: Counts, h: Id, i: nat, input: RoundInput, e: Id)
    requires s.Has(h, i) && s.headers[h].status.HeaderPlanned? && RoundRefusal(s.Cell(h, i), input).None?
    requires forall j :: 0 <= j < |s.headers[h].cells| ==> s.headers[h].cells[j].status.CellPending? && s.headers[h].cells[j].rounds == []
    ensures var r, matches := RoundSubmitted(s, h, i, input, e), input.qty == s.Cell(h, i).systemQty;
            && (r.headers[h].status.HeaderCompleted? <==> matches && |s.headers[h].cells| == 1)
            && (StartedCount(r, h).Success? ==>
                  var t := StartedCount(r, h).value;
                  && t.Has(h, i) && t.Cell(h, i).Countable()
                  && ((forall again :: RoundRefusal(t.Cell(h, i), again).Some?) <==> matches))
  {
    var c := WithRound(s.Cell(h, i), input);
    var r := RoundSubmitted(s, h, i, input, e);
    var matches := input.qty == s.Cell(h, i).systemQty;
    if matches {
      FinishedReplaces(s, h, i, c);
      if |s.headers[h].cells| == 1 {
        SettlingCompletes(s, h, i, c);
      } else {
        ManyCellsStayOpen(s, h, i, c);
      }
    }
    assert r.headers[h].cells[i].rounds == c.rounds && r.headers[h].cells[i].systemQty == c.systemQty;
    if StartedCount(r, h).Success? {
      var t := StartedCount(r, h).value;
      assert t.headers[h].cells[i] == r.headers[h].cells[i].(status := CellCounting);
      if !matches {
        var another := RoundInput(c.warehouse, input.qty, input.user + 1, false, None, 0, []);
        assert RoundRefusal(t.Cell(h, i), another).None?;
      }
    }
  }

  /** Freezing one location and finishing its cell releases it while another count is unfinished there exactly when it was under count. */
  lemma SecondFreezeReleasesExactly(s: Counts, h: Id, cellId: Id, place: Scope, input: RoundInput, e: Id)
    requires LocationsOk(s) && h !in s.headers
    requires RoundRefusal(FreshCell(cellId, place, CellCounting), input).None? && input.qty == place.systemQty
    ensures var t := FrozenSingle(s, h, cellId, place);
            && t.Has(h, 0) && RoundRefusal(t.Cell(h, 0), input).None?
            && var u := RoundSubmitted(t, h, 0, input, e);
            && u.locations[place.location].Active?
            && (place.location in s.locations ==> (BusyAt(u, place.location) <==> UnderCount(s, place.location)))
  {
    var t := FrozenSingle(s, h, cellId, place);
    var c := WithRound(t.Cell(h, 0), input);
    assert c.Outcome().Matches?;
    SettlingCompletes(t, h, 0, c);
    var u := RoundSubmitted(t, h, 0, input, e);
    forall k, j ensures Unfinished(u, k, j) <==> Unfinished(s, k, j) {
    }
    if BusyAt(u, place.location) {
      var k, j :| Unfinished(u, k, j) && u.Cell(k, j).location == place.location;
      assert Unfinished(s, k, j);
    }
    if place.location in s.locations && UnderCount(s, place.location) {
      assert BusyAt(s, place.location);
      var k, j :| Unfinished(s, k, j) && s.Cell(k, j).location == place.location;
      assert Unfinished(u, k, j);
    }
  }
}
