/** Whole runs of inventory counting, interleaved with the workflow, other movements and lost effects. */
module CountingRuns {
  import opened Common
  import opened StockEffects
  import opened StockLedger
  import opened Counting
  import A = Approval

  /**
   The tables a run works on. `awaiting` holds the exceptions that some call has just decided for
   good and whose effect that same call has still to apply, in a second transaction; `callers` has the
   warehouse that call named.
   */
  datatype World = World(counts: Counts, exceptions: A.Exceptions, stock: Stock, awaiting: set<Id>, callers: map<Id, Id>)

  datatype Event =
    | PlanCount(h: Id, firstId: Id, scope: seq<Scope>)
    | StartCount(h: Id)
    | CancelCount(h: Id)
    | FreezeSingle(h: Id, cellId: Id, place: Scope)
    | Submit(h: Id, i: nat, input: RoundInput, exception: Id)
    | Decide(e: Id, at: Id, user: Id, verdict: A.Verdict, standing: A.Standing)
    | ApplyDecision(e: Id, h: Id, i: nat)
    | AbandonDecision(e: Id)
    | WorkflowCall(event: A.Event)
    | Deactivate(l: Id)
    | OtherMovement(movement: Movement)

  predicate IsAdjustment(t: MovementType) {
    t.AjusteInventarioPos? || t.AjusteInventarioNeg?
  }

  /** The one attempt a call makes to apply the decision it has just seen made. */
  function Attempt(w: World, e: Id, h: Id, i: nat): Result<Effects, CountError>
    requires w.counts.Has(h, i) && e in w.exceptions && e in w.callers
  {
    AdjustmentDecided(w.counts, w.stock, h, i, e, w.callers[e], w.exceptions[e].status.Approved?)
  }

  /** What the code demands of each step. Elsewhere, adjustment movements name no requirement. */
  predicate Enabled(types: A.Catalogue, w: World, ev: Event) {
    match ev
    case PlanCount(h, firstId, scope) => h !in w.counts.headers && Planned(w.counts, h, firstId, scope).Success?
    case StartCount(h) => StartedCount(w.counts, h).Success?
    case CancelCount(h) => CancelledCount(w.counts, h).Success?
    case FreezeSingle(h, cellId, scope) => h !in w.counts.headers && scope.location in w.counts.locations
    case Submit(h, i, input, e) =>
      && w.counts.Has(h, i) && RoundRefusal(w.counts.Cell(h, i), input).None? && e !in w.exceptions
      && var c := WithRound(w.counts.Cell(h, i), input);
         (c.Outcome().Diverges? ==> A.Created(types, input.configured, AdjustmentRequest(c, input, c.Outcome().amount)).Success?)
    case Decide(e, at, user, verdict, standing) =>
      && e in w.exceptions && w.exceptions[e].kind in types
      && A.Decided(w.exceptions[e], types[w.exceptions[e].kind].defaultSteps, user, verdict, standing).Success?
    case ApplyDecision(e, h, i) =>
      && e in w.awaiting && e in w.exceptions && e in w.callers
      && w.counts.Has(h, i) && w.counts.Cell(h, i).exception == Some(e)
    case AbandonDecision(e) => e in w.awaiting
    case WorkflowCall(event) => true
    case Deactivate(l) => l in w.counts.locations
    case OtherMovement(movement) => IsAdjustment(movement.movementType) ==> movement.requirement.None?
  }

  function Next(types: A.Catalogue, w: World, ev: Event): World {
    if !Enabled(types, w, ev) then w
    else
      match ev
      case PlanCount(h, firstId, scope) => w.(counts := Planned(w.counts, h, firstId, scope).value)
      case StartCount(h) => w.(counts := StartedCount(w.counts, h).value)
      case CancelCount(h) => w.(counts := CancelledCount(w.counts, h).value)
      case FreezeSingle(h, cellId, scope) => w.(counts := FrozenSingle(w.counts, h, cellId, scope))
      case Submit(h, i, input, e) =>
        var c := WithRound(w.counts.Cell(h, i), input);
        w.(counts := RoundSubmitted(w.counts, h, i, input, e),
           exceptions := if c.Outcome().Diverges? then
             w.exceptions[e := A.Created(types, input.configured, AdjustmentRequest(c, input, c.Outcome().amount)).value]
           else w.exceptions)
      case Decide(e, at, user, verdict, standing) =>
        var decided := A.Decided(w.exceptions[e], types[w.exceptions[e].kind].defaultSteps, user, verdict, standing).value;
        w.(exceptions := w.exceptions[e := decided],
           awaiting := if decided.kind != ADJUSTMENT_KIND || A.Open(decided.status) then w.awaiting else w.awaiting + {e},
           callers := if decided.kind != ADJUSTMENT_KIND || A.Open(decided.status) then w.callers else w.callers[e := at])
      case ApplyDecision(e, h, i) =>
        var done := Attempt(w, e, h, i);
        if done.Failure? then w.(awaiting := w.awaiting - {e})
        else w.(counts := done.value.counts, stock := done.value.stock, awaiting := w.awaiting - {e})
      case AbandonDecision(e) => w.(awaiting := w.awaiting - {e})
      case WorkflowCall(event) => w.(exceptions := A.Next(types, w.exceptions, event))
      case Deactivate(l) => w.(counts := w.counts.(locations := w.counts.locations[l := Inactive]))
      case OtherMovement(movement) => w.(stock := Step(w.stock, movement))
  }

  function Start(locations: map<Id, LocationStatus>): World {
    World(Counts(map[], locations), map[], EMPTY_STOCK, {}, map[])
  }

  function Run(types: A.Catalogue, w: World, events: seq<Event>): World {
    if events == [] then w else Next(types, Run(types, w, events[..|events| - 1]), events[|events| - 1])
  }

  predicate UnderCount(s: Counts, l: Id) {
    l in s.locations && s.locations[l].Inventory?
  }

  /** A round that settles, at once, the only cell of a header that never started, at a place nobody counts. */
  predicate SettlesItsHeader(s: Counts, h: Id, i: nat, input: RoundInput)
    requires s.Has(h, i)
  {
    |s.headers[h].cells| == 1 && input.qty == s.Cell(h, i).systemQty && !UnderCount(s, s.Cell(h, i).location)
  }

  /**
   What the callers have to see to: rounds only on started headers, but for one harmless case, and no
   location frozen again or deactivated while it is under count.
   */
  predicate Disciplined(w: World, ev: Event) {
    match ev
    case Submit(h, i, input, e) =>
      w.counts.Has(h, i) ==> w.counts.headers[h].Started() || SettlesItsHeader(w.counts, h, i, input)
    case FreezeSingle(h, cellId, place) => !UnderCount(w.counts, place.location)
    case Deactivate(l) => !UnderCount(w.counts, l)
    case _ => true
  }

  predicate DisciplinedRun(types: A.Catalogue, w: World, events: seq<Event>) {
    events == [] ||
    (var u := Run(types, w, events[..|events| - 1]);
     && DisciplinedRun(types, w, events[..|events| - 1])
     && (Enabled(types, u, events[|events| - 1]) ==> Disciplined(u, events[|events| - 1])))
  }

  // ---- The invariant -----------------------------------------------------------------------

  function AdjustmentFor(e: Id): Row -> bool {
    (r: Row) => IsAdjustment(r.movementType) && r.requirement == Some(e)
  }

  /** The adjustment rows that name an exception. */
  function Adjustments(ledger: seq<Row>, e: Id): seq<Row> {
    Filter(AdjustmentFor(e), ledger)
  }

  /** The row that moves a balance of the cell's content, in one warehouse, by what was counted over the system's count. */
  predicate IsExactAdjustment(row: Row, c: Cell, e: Id) {
    && c.product.Some? && row.requirement == Some(e) && row.documentRef == Some(c.id)
    && row.qty == Divergence(c)
    && if c.FinalQty() > c.systemQty
       then row.movementType.AjusteInventarioPos? && row.CreditLeg() == Some(c.LegAt(row.warehouse)) && row.DebitLeg().None?
       else row.movementType.AjusteInventarioNeg? && row.DebitLeg() == Some(c.LegAt(row.warehouse)) && row.CreditLeg().None?
  }

  ghost predicate LinkOk(x: A.Exceptions, ledger: seq<Row>, c: Cell, e: Id) {
    && e in x && x[e].kind == ADJUSTMENT_KIND && x[e].qty == Some(Divergence(c)) && !c.Countable()
    && (c.status.CellAdjusting? ==> Adjustments(ledger, e) == [])
    && (c.status.CellDone? ==>
          x[e].status.Approved? && |Adjustments(ledger, e)| == 1 && IsExactAdjustment(Adjustments(ledger, e)[0], c, e))
  }

  ghost predicate CellOk(x: A.Exceptions, ledger: seq<Row>, c: Cell) {
    && RoundsOk(c.rounds)
    && (c.Countable() <==> c.Outcome().AwaitingRound?)
    && (c.exception.Some? <==> c.Outcome().Diverges?)
    && (c.status.CellAdjusting? ==> c.exception.Some?)
    && (c.exception.Some? ==> LinkOk(x, ledger, c, c.exception.value))
  }

  ghost predicate CellsOk(s: Counts, x: A.Exceptions, ledger: seq<Row>) {
    forall h, i :: s.Has(h, i) ==> CellOk(x, ledger, s.Cell(h, i))
  }

  ghost predicate LinksDistinct(s: Counts) {
    forall h, i, h', i' ::
      s.Has(h, i) && s.Has(h', i') && s.Cell(h, i).exception.Some? && s.Cell(h, i).exception == s.Cell(h', i').exception
      ==> h == h' && i == i'
  }

  /** Every adjustment row belongs to a finished cell. */
  ghost predicate AdjustmentsLinked(s: Counts, x: A.Exceptions, ledger: seq<Row>) {
    forall e :: Adjustments(ledger, e) != [] ==> e in x && !A.Open(x[e].status) && CellFinishedBy(s, e)
  }

  ghost predicate CellFinishedBy(s: Counts, e: Id) {
    exists h, i :: s.Has(h, i) && s.Cell(h, i).exception == Some(e) && s.Cell(h, i).status.CellDone?
  }

  ghost predicate AwaitingOk(w: World) {
    forall e :: e in w.awaiting ==>
      && e in w.exceptions && e in w.callers && !A.Open(w.exceptions[e].status) && w.exceptions[e].kind == ADJUSTMENT_KIND
      && (w.exceptions[e].status.Approved? || w.exceptions[e].status.Rejected?)
      && Adjustments(w.stock.ledger, e) == []
  }

  ghost predicate HeaderOk(header: Header) {
    && header.cells != []
    && match header.status
       case HeaderPlanned | HeaderCancelled =>
         forall i :: 0 <= i < |header.cells| ==> header.cells[i].status.CellPending? && header.cells[i].rounds == []
       case HeaderCompleted => AllDone(header) && header.accuracy == Some(AccuracyOf(header.cells))
       case _ => !AllDone(header)
  }

  ghost predicate HeadersOk(s: Counts) {
    forall h :: h in s.headers ==> HeaderOk(s.headers[h])
  }

  /** A started count still has a cell to finish here. */
  predicate Unfinished(s: Counts, h: Id, i: nat) {
    s.Has(h, i) && s.headers[h].Started() && !s.Cell(h, i).status.CellDone?
  }

  ghost predicate BusyAt(s: Counts, l: Id) {
    exists h, i :: Unfinished(s, h, i) && s.Cell(h, i).location == l
  }

  ghost predicate LocationsOk(s: Counts) {
    && (forall h, i :: Unfinished(s, h, i) ==> s.Cell(h, i).location in s.locations && s.locations[s.Cell(h, i).location].Inventory?)
    && (forall l :: l in s.locations && s.locations[l].Inventory? ==> BusyAt(s, l))
    && (forall h, i, h', i' ::
          Unfinished(s, h, i) && Unfinished(s, h', i') && s.Cell(h, i).location == s.Cell(h', i').location ==> h == h')
  }

  ghost predicate Inv(types: A.Catalogue, w: World) {
    && CellsOk(w.counts, w.exceptions, w.stock.ledger) && LinksDistinct(w.counts)
    && AdjustmentsLinked(w.counts, w.exceptions, w.stock.ledger) && AwaitingOk(w)
    && HeadersOk(w.counts) && LocationsOk(w.counts)
    && A.AllSound(types, w.exceptions)
  }

  // ---- The ledger --------------------------------------------------------------------------

  lemma OtherRowsAreNoAdjustments(s: Stock, m: Movement, e: Id)
    requires IsAdjustment(m.movementType) ==> m.requirement.None?
    ensures Adjustments(Step(s, m).ledger, e) == Adjustments(s.ledger, e)
  {
    if Applied(s, m).Success? {
      var rows := PostingOf(m).value.rows;
      FilterConcat(AdjustmentFor(e), s.ledger, rows);
      forall r | r in rows ensures !AdjustmentFor(e)(r) {
        assert r.movementType == m.movementType && r.requirement == m.requirement;
      }
      FilterEmpty(AdjustmentFor(e), rows);
      assert Adjustments(s.ledger, e) + [] == Adjustments(s.ledger, e);
    }
  }

  lemma AdjustmentPosting(c: Cell, e: Id, at: Id)
    requires c.product.Some? && c.rounds != [] && c.FinalQty() != c.systemQty
    ensures var p := PostingOf(AdjustmentMovement(c, e, at));
            p.Success? && |p.value.rows| == 1 && IsExactAdjustment(p.value.rows[0], c, e) && p.value.rows[0].warehouse == at
    ensures var p := PostingOf(AdjustmentMovement(c, e, at)).value;
            if c.FinalQty() > c.systemQty then p.credit == Some(c.LegAt(at)) && p.debit.None?
            else p.debit == Some(c.LegAt(at)) && p.credit.None?
  {
  }

  lemma AdjustmentIsOneRow(s: Stock, c: Cell, e: Id, at: Id)
    requires c.product.Some? && c.rounds != [] && c.FinalQty() != c.systemQty
    requires Applied(s, AdjustmentMovement(c, e, at)).Success?
    ensures var l' := Applied(s, AdjustmentMovement(c, e, at)).value.ledger;
            && |Adjustments(l', e)| == |Adjustments(s.ledger, e)| + 1
            && IsExactAdjustment(Adjustments(l', e)[|Adjustments(s.ledger, e)|], c, e)
            && Adjustments(l', e)[|Adjustments(s.ledger, e)|].warehouse == at
            && forall e' :: e' != e ==> Adjustments(l', e') == Adjustments(s.ledger, e')
  {
    AdjustmentPosting(c, e, at);
    var row := PostingOf(AdjustmentMovement(c, e, at)).value.rows[0];
    assert PostingOf(AdjustmentMovement(c, e, at)).value.rows == [row];
    FilterConcat(AdjustmentFor(e), s.ledger, [row]);
    FilterAll(AdjustmentFor(e), [row]);
    forall e' | e' != e ensures Filter(AdjustmentFor(e'), s.ledger + [row]) == Adjustments(s.ledger, e') {
      FilterConcat(AdjustmentFor(e'), s.ledger, [row]);
      FilterEmpty(AdjustmentFor(e'), [row]);
      assert Adjustments(s.ledger, e') + [] == Adjustments(s.ledger, e');
    }
  }

  // ---- Cells -------------------------------------------------------------------------------

  /** Exceptions are only added; they keep what they are about, and decided ones do not change. */
  ghost predicate Evolves(x: A.Exceptions, y: A.Exceptions) {
    forall e :: e in x ==>
      e in y && y[e].kind == x[e].kind && y[e].qty == x[e].qty && (!A.Open(x[e].status) ==> y[e] == x[e])
  }

  lemma ExceptionsEvolve(types: A.Catalogue, w: World, ev: Event)
    ensures Evolves(w.exceptions, Next(types, w, ev).exceptions)
  {
    if ev.WorkflowCall? {
      forall e | e in w.exceptions ensures e in A.Next(types, w.exceptions, ev.event) {
      }
    }
  }

  lemma CellOkPersists(x: A.Exceptions, ledger: seq<Row>, x': A.Exceptions, ledger': seq<Row>, c: Cell)
    requires CellOk(x, ledger, c) && Evolves(x, x')
    requires c.exception.Some? ==> Adjustments(ledger', c.exception.value) == Adjustments(ledger, c.exception.value)
    ensures CellOk(x', ledger', c)
  {
  }

  /** `s'` has the cells of `s`, except that cell `i` of count `h` is now `c`. */
  ghost predicate CellReplaced(s: Counts, s': Counts, h: Id, i: nat, c: Cell) {
    && s.Has(h, i) && s'.headers.Keys == s.headers.Keys
    && (forall k :: k in s.headers && k != h ==> s'.headers[k] == s.headers[k])
    && s'.headers[h].cells == s.headers[h].cells[i := c]
  }

  lemma CellsCarryOver(
    s: Counts, x: A.Exceptions, ledger: seq<Row>, s': Counts, x': A.Exceptions, ledger': seq<Row>, h: Id, i: nat, c: Cell, e: Option<Id>)
    requires CellsOk(s, x, ledger) && CellReplaced(s, s', h, i, c) && Evolves(x, x') && CellOk(x', ledger', c)
    requires forall e': Id :: Some(e') != e ==> Adjustments(ledger', e') == Adjustments(ledger, e')
    requires forall k, j :: s.Has(k, j) && (k != h || j != i) && s.Cell(k, j).exception.Some? ==> s.Cell(k, j).exception != e
    ensures CellsOk(s', x', ledger')
  {
    forall k, j | s'.Has(k, j) ensures CellOk(x', ledger', s'.Cell(k, j)) {
      if k != h || j != i {
        assert s.Has(k, j) && s'.Cell(k, j) == s.Cell(k, j);
        CellOkPersists(x, ledger, x', ledger', s.Cell(k, j));
      }
    }
  }

  lemma LinksCarryOver(s: Counts, s': Counts, h: Id, i: nat, c: Cell)
    requires LinksDistinct(s) && CellReplaced(s, s', h, i, c)
    requires c.exception.Some? ==>
      forall k, j :: s.Has(k, j) && (k != h || j != i) ==> s.Cell(k, j).exception != c.exception
    ensures LinksDistinct(s')
  {
    forall k, j, k', j' | s'.Has(k, j) && s'.Has(k', j') && s'.Cell(k, j).exception.Some? && s'.Cell(k, j).exception == s'.Cell(k', j').exception
      ensures k == k' && j == j'
    {
      assert s.Has(k, j) && s.Has(k', j');
      assert s'.Cell(k, j) == if k == h && j == i then c else s.Cell(k, j);
      assert s'.Cell(k', j') == if k' == h && j' == i then c else s.Cell(k', j');
    }
  }

  lemma FinishedReplaces(s: Counts, h: Id, i: nat, c: Cell)
    requires s.Has(h, i)
    ensures CellReplaced(s, Finished(s, h, i, c), h, i, c.(status := CellDone))
  {
  }

  // ---- Locations and headers ---------------------------------------------------------------

  /** Steps that neither finish nor begin work anywhere keep the locations in agreement. */
  lemma SameWork(s: Counts, s': Counts)
    requires LocationsOk(s) && s'.locations == s.locations
    requires forall h, i :: Unfinished(s', h, i) <==> Unfinished(s, h, i)
    requires forall h, i :: Unfinished(s', h, i) ==> s'.Cell(h, i).location == s.Cell(h, i).location
    ensures LocationsOk(s')
  {
    forall l | l in s'.locations && s'.locations[l].Inventory? ensures BusyAt(s', l) {
      assert BusyAt(s, l);
      var h, i :| Unfinished(s, h, i) && s.Cell(h, i).location == l;
      assert Unfinished(s', h, i);
    }
  }

  /** Replacing an unfinished cell of a started count by another unfinished one at the same place. */
  lemma StillUnfinished(s: Counts, s': Counts, h: Id, i: nat, c: Cell)
    requires LocationsOk(s) && HeadersOk(s) && CellReplaced(s, s', h, i, c) && s'.locations == s.locations
    requires Unfinished(s, h, i) && !c.status.CellDone? && c.location == s.Cell(h, i).location
    requires s'.headers[h].Started()
    ensures LocationsOk(s') && HeadersOk(s')
  {
    forall k, j ensures Unfinished(s', k, j) <==> Unfinished(s, k, j) {
      if s.Has(k, j) && (k != h || j != i) {
        assert s'.Cell(k, j) == s.Cell(k, j);
      }
    }
    assert s'.headers[h].cells[i] == c;
    SameWork(s, s');
  }

  /** Finishing a cell releases its location, and closes its count, exactly when it was the last one. */
  lemma FinishingKeepsPlaces(s: Counts, h: Id, i: nat, c: Cell)
    requires LocationsOk(s) && HeadersOk(s) && Unfinished(s, h, i) && c.location == s.Cell(h, i).location
    ensures LocationsOk(Finished(s, h, i, c)) && HeadersOk(Finished(s, h, i, c))
  {
    var s' := Finished(s, h, i, c);
    FinishedReplaces(s, h, i, c);
    var t := s.WithCell(h, i, c.(status := CellDone));
    forall k, j ensures Unfinished(s', k, j) <==> Unfinished(s, k, j) && (k != h || j != i) {
      FinishingEndsOneCell(s, h, i, c, k, j);
    }
    forall k, j | Unfinished(s', k, j) ensures s'.Cell(k, j) == s.Cell(k, j) && (s.Cell(k, j).location == c.location ==> k == h) {
    }
    assert s'.locations == if DoneAt(t.headers[h], c.location) then s.locations[c.location := Active] else s.locations;
    if DoneAt(t.headers[h], c.location) {
      forall j: nat | Unfinished(s', h, j) ensures s'.Cell(h, j).location != c.location {
        assert t.headers[h].cells[j] == s'.Cell(h, j);
      }
    } else {
      var j :| 0 <= j < |t.headers[h].cells| && t.headers[h].cells[j].location == c.location && !t.headers[h].cells[j].status.CellDone?;
      assert Unfinished(s', h, j);
    }
    forall l | l in s'.locations && s'.locations[l].Inventory? ensures BusyAt(s', l) {
      assert BusyAt(s, l);
      var k, j :| Unfinished(s, k, j) && s.Cell(k, j).location == l;
      if k != h || j != i {
        assert Unfinished(s', k, j);
      }
    }
  }

  lemma FinishingEndsOneCell(s: Counts, h: Id, i: nat, c: Cell, k: Id, j: nat)
    requires Unfinished(s, h, i)
    ensures Unfinished(Finished(s, h, i, c), k, j) <==> Unfinished(s, k, j) && (k != h || j != i)
  {
    var t := s.WithCell(h, i, c.(status := CellDone));
    assert s.Has(k, j) <==> t.Has(k, j);
    if s.Has(h, j) {
      assert t.headers[h].cells[j] == if j == i then c.(status := CellDone) else s.headers[h].cells[j];
    }
  }

  // ---- Every step keeps the invariant ------------------------------------------------------

  lemma FinishedCellsPersist(s: Counts, s': Counts, h: Id, i: nat, c: Cell)
    requires CellReplaced(s, s', h, i, c) && !s.Cell(h, i).status.CellDone?
    ensures forall e :: CellFinishedBy(s, e) ==> CellFinishedBy(s', e)
  {
    forall e: Id | CellFinishedBy(s, e) ensures CellFinishedBy(s', e) {
      var k, j :| s.Has(k, j) && s.Cell(k, j).exception == Some(e) && s.Cell(k, j).status.CellDone?;
      assert s'.Has(k, j) && s'.Cell(k, j) == s.Cell(k, j);
    }
  }

  /** A registered round obeys the rules, and a divergence is what it differs from the system by. */
  lemma RoundObeysTheRules(c: Cell, input: RoundInput)
    requires RoundsOk(c.rounds) && RoundRefusal(c, input).None?
    ensures var c' := WithRound(c, input);
            && RoundsOk(c'.rounds)
            && (c'.Outcome().Diverges? ==> c'.Outcome().amount == c'.FinalQty() - c'.systemQty != 0)
  {
  }

  /** The cell as a submitted round leaves it. */
  function CountedCell(c: Cell, input: RoundInput, e: Id): Cell
    requires RoundRefusal(c, input).None?
  {
    var c' := WithRound(c, input);
    match c'.Outcome()
    case AwaitingRound(_, _, _) => c'.(status := CellCounting)
    case Matches => c'.(status := CellDone)
    case Diverges(_) => c'.(status := CellAdjusting, exception := Some(e))
  }

  lemma SubmitReplaces(s: Counts, h: Id, i: nat, input: RoundInput, e: Id)
    requires s.Has(h, i) && RoundRefusal(s.Cell(h, i), input).None?
    ensures CellReplaced(s, RoundSubmitted(s, h, i, input, e), h, i, CountedCell(s.Cell(h, i), input, e))
  {
    var c := WithRound(s.Cell(h, i), input);
    if c.Outcome().Matches? {
      FinishedReplaces(s, h, i, c);
    }
  }

  lemma CountedCellOk(x: A.Exceptions, x': A.Exceptions, ledger: seq<Row>, c: Cell, input: RoundInput, e: Id)
    requires CellOk(x, ledger, c) && RoundRefusal(c, input).None? && Adjustments(ledger, e) == []
    requires WithRound(c, input).Outcome().Diverges? ==>
      e in x' && x'[e].kind == ADJUSTMENT_KIND && x'[e].qty == Some(Abs(WithRound(c, input).Outcome().amount))
    ensures CellOk(x', ledger, CountedCell(c, input, e))
  {
    RoundObeysTheRules(c, input);
    if WithRound(c, input).Outcome().Diverges? {
      assert LinkOk(x', ledger, CountedCell(c, input, e), e);
    }
  }

  lemma SubmitKeepsCells(types: A.Catalogue, w: World, ev: Event, w': World)
    requires Inv(types, w) && ev.Submit? && Enabled(types, w, ev) && w' == Next(types, w, ev)
    ensures CellsOk(w'.counts, w'.exceptions, w'.stock.ledger) && LinksDistinct(w'.counts)
    ensures CellReplaced(w.counts, w'.counts, ev.h, ev.i, CountedCell(w.counts.Cell(ev.h, ev.i), ev.input, ev.exception))
  {
    var c := w.counts.Cell(ev.h, ev.i);
    var c' := CountedCell(c, ev.input, ev.exception);
    ExceptionsEvolve(types, w, ev);
    SubmitReplaces(w.counts, ev.h, ev.i, ev.input, ev.exception);
    NothingLinkedTo(w.counts, w.exceptions, w.stock.ledger, ev.exception);
    CountedCellOk(w.exceptions, w'.exceptions, w.stock.ledger, c, ev.input, ev.exception);
    CellsCarryOver(w.counts, w.exceptions, w.stock.ledger, w'.counts, w'.exceptions, w.stock.ledger, ev.h, ev.i, c', None);
    LinksCarryOver(w.counts, w'.counts, ev.h, ev.i, c');
  }

  /** No cell is linked to an exception that does not exist. */
  lemma NothingLinkedTo(s: Counts, x: A.Exceptions, ledger: seq<Row>, e: Id)
    requires CellsOk(s, x, ledger) && e !in x
    ensures forall h, i :: s.Has(h, i) ==> s.Cell(h, i).exception != Some(e)
  {
    forall h, i | s.Has(h, i) ensures s.Cell(h, i).exception != Some(e) {
      assert CellOk(x, ledger, s.Cell(h, i));
    }
  }

  /** A header that has not started and still takes a round is untouched so far. */
  lemma UnstartedIsUntouched(types: A.Catalogue, w: World, h: Id, i: nat)
    requires Inv(types, w) && w.counts.Has(h, i) && w.counts.Cell(h, i).Countable() && !w.counts.headers[h].Started()
    ensures w.counts.headers[h].status.HeaderPlanned? || w.counts.headers[h].status.HeaderCancelled?
    ensures forall j :: 0 <= j < |w.counts.headers[h].cells| ==>
      w.counts.headers[h].cells[j].status.CellPending? && w.counts.headers[h].cells[j].rounds == []
  {
    assert HeaderOk(w.counts.headers[h]);
  }

  /** A first round that settles the only cell of such a header completes the header and frees its location. */
  lemma SettlingCompletes(s: Counts, h: Id, i: nat, c: Cell)
    requires s.Has(h, i) && |s.headers[h].cells| == 1
    ensures var s' := Finished(s, h, i, c);
            && s'.headers[h].status.HeaderCompleted? && s'.headers[h].cells == [c.(status := CellDone)]
            && s'.headers[h].accuracy == Some(AccuracyOf(s'.headers[h].cells))
            && s'.headers == s.headers[h := s'.headers[h]] && s'.locations == s.locations[c.location := Active]
  {
    assert s.headers[h].cells[i := c.(status := CellDone)] == [c.(status := CellDone)];
  }

  lemma SettlingKeepsPlaces(s: Counts, h: Id, i: nat, c: Cell)
    requires LocationsOk(s) && HeadersOk(s) && s.Has(h, i) && |s.headers[h].cells| == 1 && !s.headers[h].Started()
    requires !UnderCount(s, c.location)
    ensures LocationsOk(Finished(s, h, i, c)) && HeadersOk(Finished(s, h, i, c))
  {
    var s' := Finished(s, h, i, c);
    SettlingCompletes(s, h, i, c);
    forall k, j ensures Unfinished(s', k, j) <==> Unfinished(s, k, j) {
    }
    forall l | l in s'.locations && s'.locations[l].Inventory? ensures BusyAt(s', l) {
      assert BusyAt(s, l);
      var k, j :| Unfinished(s, k, j) && s.Cell(k, j).location == l;
      assert Unfinished(s', k, j);
    }
  }

  lemma SubmitKeepsPlaces(types: A.Catalogue, w: World, ev: Event, w': World)
    requires Inv(types, w) && ev.Submit? && Enabled(types, w, ev) && Disciplined(w, ev) && w' == Next(types, w, ev)
    ensures LocationsOk(w'.counts) && HeadersOk(w'.counts)
  {
    var h, i := ev.h, ev.i;
    var c := WithRound(w.counts.Cell(h, i), ev.input);
    if !w.counts.headers[h].Started() {
      UnstartedIsUntouched(types, w, h, i);
      SettlingKeepsPlaces(w.counts, h, i, c);
    } else if c.Outcome().AwaitingRound? {
      StillUnfinished(w.counts, w'.counts, h, i, c.(status := CellCounting));
    } else if c.Outcome().Matches? {
      FinishingKeepsPlaces(w.counts, h, i, c);
    } else {
      StillUnfinished(w.counts, w'.counts, h, i, c.(status := CellAdjusting, exception := Some(ev.exception)));
    }
  }

  /** With the same ledger, growing exceptions and no finished cell undone, rows stay linked. */
  lemma LinkedPersists(s: Counts, x: A.Exceptions, s': Counts, x': A.Exceptions, ledger: seq<Row>)
    requires AdjustmentsLinked(s, x, ledger) && Evolves(x, x')
    requires forall e :: CellFinishedBy(s, e) ==> CellFinishedBy(s', e)
    ensures AdjustmentsLinked(s', x', ledger)
  {
  }

  /** A round at most opens one new exception. */
  lemma SubmitKeepsExceptions(types: A.Catalogue, w: World, ev: Event, w': World)
    requires A.AllSound(types, w.exceptions) && AwaitingOk(w) && ev.Submit? && Enabled(types, w, ev) && w' == Next(types, w, ev)
    requires forall t :: t in types ==> types[t].defaultSteps >= 1
    ensures A.AllSound(types, w'.exceptions) && AwaitingOk(w')
  {
    var c := WithRound(w.counts.Cell(ev.h, ev.i), ev.input);
    if c.Outcome().Diverges? {
      A.SoundWith(types, w.exceptions, ev.exception,
                A.Created(types, ev.input.configured, AdjustmentRequest(c, ev.input, c.Outcome().amount)).value);
    }
  }

  lemma SubmitKeepsInv(types: A.Catalogue, w: World, ev: Event, w': World)
    requires Inv(types, w) && ev.Submit? && Enabled(types, w, ev) && Disciplined(w, ev) && w' == Next(types, w, ev)
    requires forall t :: t in types ==> types[t].defaultSteps >= 1
    ensures Inv(types, w')
  {
    ExceptionsEvolve(types, w, ev);
    SubmitKeepsCells(types, w, ev, w');
    SubmitKeepsPlaces(types, w, ev, w');
    SubmitKeepsExceptions(types, w, ev, w');
    FinishedCellsPersist(w.counts, w'.counts, ev.h, ev.i, CountedCell(w.counts.Cell(ev.h, ev.i), ev.input, ev.exception));
    LinkedPersists(w.counts, w.exceptions, w'.counts, w'.exceptions, w.stock.ledger);
  }

  /** The cell of a decision still to be applied is waiting for it, in a started count. */
  lemma AwaitedCell(types: A.Catalogue, w: World, e: Id, h: Id, i: nat)
    requires Inv(types, w) && Enabled(types, w, ApplyDecision(e, h, i))
    ensures var c := w.counts.Cell(h, i);
            && Unfinished(w.counts, h, i) && c.status.CellAdjusting? && c.rounds != [] && c.FinalQty() != c.systemQty
  {
    var c := w.counts.Cell(h, i);
    assert CellOk(w.exceptions, w.stock.ledger, c) && LinkOk(w.exceptions, w.stock.ledger, c, e);
    assert HeaderOk(w.counts.headers[h]);
  }

  lemma RejectionKeepsInv(types: A.Catalogue, w: World, e: Id, h: Id, i: nat)
    requires Inv(types, w) && Enabled(types, w, ApplyDecision(e, h, i)) && !w.exceptions[e].status.Approved?
    ensures Inv(types, Next(types, w, ApplyDecision(e, h, i)))
  {
    var w' := Next(types, w, ApplyDecision(e, h, i));
    var c := w.counts.Cell(h, i);
    AwaitedCell(types, w, e, h, i);
    var c' := c.(status := CellPending, exception := None, past := c.past + [c.rounds], rounds := []);
    assert CellReplaced(w.counts, w'.counts, h, i, c');
    CellsCarryOver(w.counts, w.exceptions, w.stock.ledger, w'.counts, w.exceptions, w.stock.ledger, h, i, c', None);
    LinksCarryOver(w.counts, w'.counts, h, i, c');
    StillUnfinished(w.counts, w'.counts, h, i, c');
    FinishedCellsPersist(w.counts, w'.counts, h, i, c');
    LinkedPersists(w.counts, w.exceptions, w'.counts, w.exceptions, w.stock.ledger);
  }

  lemma ApprovedCellIsDone(x: A.Exceptions, stock: Stock, c: Cell, e: Id, at: Id)
    requires CellOk(x, stock.ledger, c) && c.status.CellAdjusting? && c.exception == Some(e) && x[e].status.Approved?
    requires c.product.Some? && c.rounds != [] && c.FinalQty() != c.systemQty && Applied(stock, AdjustmentMovement(c, e, at)).Success?
    ensures CellOk(x, Applied(stock, AdjustmentMovement(c, e, at)).value.ledger, c.(status := CellDone))
  {
    AdjustmentIsOneRow(stock, c, e, at);
    assert LinkOk(x, stock.ledger, c, e);
    assert LinkOk(x, Applied(stock, AdjustmentMovement(c, e, at)).value.ledger, c.(status := CellDone), e);
  }

  /** The approved cell is done and its one row is exact; everything else is as it was. */
  lemma ApprovalWrites(types: A.Catalogue, w: World, e: Id, h: Id, i: nat, w': World)
    requires Inv(types, w) && Enabled(types, w, ApplyDecision(e, h, i)) && w.exceptions[e].status.Approved? && Attempt(w, e, h, i).Success?
    requires w' == Next(types, w, ApplyDecision(e, h, i))
    ensures var c' := w.counts.Cell(h, i).(status := CellDone);
            && CellReplaced(w.counts, w'.counts, h, i, c') && CellOk(w'.exceptions, w'.stock.ledger, c')
            && w'.exceptions == w.exceptions && c'.exception == Some(e) && !w.counts.Cell(h, i).status.CellDone?
            && (forall e' :: e' != e ==> Adjustments(w'.stock.ledger, e') == Adjustments(w.stock.ledger, e'))
            && Adjustments(w'.stock.ledger, e) != [] && Adjustments(w'.stock.ledger, e)[0].warehouse == w.callers[e]
  {
    var c := w.counts.Cell(h, i);
    AwaitedCell(types, w, e, h, i);
    assert Applied(w.stock, AdjustmentMovement(c, e, w.callers[e])) == Success(w'.stock) && w'.counts == Finished(w.counts, h, i, c);
    ApprovedCellIsDone(w.exceptions, w.stock, c, e, w.callers[e]);
    AdjustmentIsOneRow(w.stock, c, e, w.callers[e]);
    FinishedReplaces(w.counts, h, i, c);
  }

  lemma ApprovalKeepsCells(types: A.Catalogue, w: World, e: Id, h: Id, i: nat, w': World)
    requires Inv(types, w) && Enabled(types, w, ApplyDecision(e, h, i)) && w.exceptions[e].status.Approved? && Attempt(w, e, h, i).Success?
    requires w' == Next(types, w, ApplyDecision(e, h, i))
    ensures CellsOk(w'.counts, w'.exceptions, w'.stock.ledger) && LinksDistinct(w'.counts)
  {
    var c' := w.counts.Cell(h, i).(status := CellDone);
    ApprovalWrites(types, w, e, h, i, w');
    CellsCarryOver(w.counts, w.exceptions, w.stock.ledger, w'.counts, w'.exceptions, w'.stock.ledger, h, i, c', Some(e));
    LinksCarryOver(w.counts, w'.counts, h, i, c');
  }

  lemma ApprovalKeepsLinks(types: A.Catalogue, w: World, e: Id, h: Id, i: nat, w': World)
    requires Inv(types, w) && Enabled(types, w, ApplyDecision(e, h, i)) && w.exceptions[e].status.Approved? && Attempt(w, e, h, i).Success?
    requires w' == Next(types, w, ApplyDecision(e, h, i))
    ensures AdjustmentsLinked(w'.counts, w'.exceptions, w'.stock.ledger) && AwaitingOk(w')
  {
    var c' := w.counts.Cell(h, i).(status := CellDone);
    ApprovalWrites(types, w, e, h, i, w');
    FinishedCellsPersist(w.counts, w'.counts, h, i, c');
    assert w'.counts.Has(h, i) && w'.counts.Cell(h, i) == c';
    assert CellFinishedBy(w'.counts, e);
  }

  lemma ApprovalKeepsInv(types: A.Catalogue, w: World, e: Id, h: Id, i: nat)
    requires Inv(types, w) && Enabled(types, w, ApplyDecision(e, h, i)) && w.exceptions[e].status.Approved? && Attempt(w, e, h, i).Success?
    ensures Inv(types, Next(types, w, ApplyDecision(e, h, i)))
  {
    var w' := Next(types, w, ApplyDecision(e, h, i));
    AwaitedCell(types, w, e, h, i);
    ApprovalKeepsCells(types, w, e, h, i, w');
    ApprovalKeepsLinks(types, w, e, h, i, w');
    FinishingKeepsPlaces(w.counts, h, i, w.counts.Cell(h, i));
  }

  /** An attempt that fails changes nothing but that it was made. */
  lemma FailedAttemptKeepsInv(types: A.Catalogue, w: World, e: Id, h: Id, i: nat)
    requires Inv(types, w) && Enabled(types, w, ApplyDecision(e, h, i)) && Attempt(w, e, h, i).Failure?
    ensures Inv(types, Next(types, w, ApplyDecision(e, h, i)))
  {
    assert Next(types, w, ApplyDecision(e, h, i)) == w.(awaiting := w.awaiting - {e});
  }

  /** `s'` differs from `s` in count `h` alone, all of whose cells have yet to be counted. */
  ghost predicate CountOpened(s: Counts, s': Counts, h: Id) {
    && h in s'.headers && s'.headers == s.headers[h := s'.headers[h]]
    && (h in s.headers ==> forall i :: 0 <= i < |s.headers[h].cells| ==> !s.headers[h].cells[i].status.CellDone?)
    && forall i :: 0 <= i < |s'.headers[h].cells| ==>
        var c := s'.headers[h].cells[i]; c.Countable() && c.rounds == [] && c.exception.None?
  }

  lemma OpeningKeepsCells(s: Counts, x: A.Exceptions, ledger: seq<Row>, s': Counts, h: Id)
    requires CellsOk(s, x, ledger) && LinksDistinct(s) && AdjustmentsLinked(s, x, ledger) && CountOpened(s, s', h)
    ensures CellsOk(s', x, ledger) && LinksDistinct(s') && AdjustmentsLinked(s', x, ledger)
  {
    forall k, j | s'.Has(k, j) ensures CellOk(x, ledger, s'.Cell(k, j)) {
      if k != h {
        assert s.Has(k, j) && s'.Cell(k, j) == s.Cell(k, j);
      }
    }
    forall k, j, k', j' | s'.Has(k, j) && s'.Has(k', j') && s'.Cell(k, j).exception.Some? && s'.Cell(k, j).exception == s'.Cell(k', j').exception
      ensures k == k' && j == j'
    {
      assert k != h && k' != h;
      assert s.Has(k, j) && s.Has(k', j') && s'.Cell(k, j) == s.Cell(k, j) && s'.Cell(k', j') == s.Cell(k', j');
    }
    forall e: Id | CellFinishedBy(s, e) ensures CellFinishedBy(s', e) {
      var k, j :| s.Has(k, j) && s.Cell(k, j).exception == Some(e) && s.Cell(k, j).status.CellDone?;
      assert s'.Has(k, j) && s'.Cell(k, j) == s.Cell(k, j);
    }
  }

  /** Opening a started count over locations not under count freezes exactly them. */
  lemma OpeningKeepsPlaces(s: Counts, s': Counts, h: Id)
    requires LocationsOk(s) && CountOpened(s, s', h) && s'.headers[h].Started() && (h in s.headers ==> !s.headers[h].Started())
    requires forall l :: l in Locations(s'.headers[h].cells) ==> l in s.locations && !s.locations[l].Inventory?
    requires s'.locations == Frozen(s.locations, Locations(s'.headers[h].cells))
    ensures LocationsOk(s')
  {
    forall k, j ensures Unfinished(s', k, j) <==> if k == h then s'.Has(k, j) else Unfinished(s, k, j) {
      if k != h && s.Has(k, j) {
        assert s'.Cell(k, j) == s.Cell(k, j);
      }
    }
    forall k, j | Unfinished(s', k, j) && k != h ensures s'.Cell(k, j).location !in Locations(s'.headers[h].cells) {
      assert s'.Cell(k, j) == s.Cell(k, j);
    }
    forall j: nat | s'.Has(h, j) ensures s'.Cell(h, j).location in Locations(s'.headers[h].cells) {
    }
    forall l | l in s'.locations && s'.locations[l].Inventory? ensures BusyAt(s', l) {
      if l in Locations(s'.headers[h].cells) {
        var j :| 0 <= j < |s'.headers[h].cells| && s'.headers[h].cells[j].location == l;
        assert Unfinished(s', h, j);
      } else {
        assert BusyAt(s, l);
        var k, j :| Unfinished(s, k, j) && s.Cell(k, j).location == l;
        assert Unfinished(s', k, j);
      }
    }
  }

  lemma CountingKeepsLocations(cells: seq<Cell>)
    ensures Locations(AllCounting(cells)) == Locations(cells)
  {
    forall i | 0 <= i < |cells| ensures AllCounting(cells)[i].location in Locations(cells) && cells[i].location in Locations(AllCounting(cells)) {
      assert AllCounting(cells)[i].location == cells[i].location;
    }
  }

  lemma StartKeepsInv(types: A.Catalogue, w: World, ev: Event)
    requires Inv(types, w) && ev.StartCount? && Enabled(types, w, ev)
    ensures Inv(types, Next(types, w, ev))
  {
    var s, s', h := w.counts, Next(types, w, ev).counts, ev.h;
    var cells := s.headers[h].cells;
    forall i | 0 <= i < |cells| ensures cells[i].exception.None? {
      assert s.Has(h, i) && CellOk(w.exceptions, w.stock.ledger, s.Cell(h, i));
    }
    assert CountOpened(s, s', h);
    CountingKeepsLocations(cells);
    OpeningKeepsCells(s, w.exceptions, w.stock.ledger, s', h);
    OpeningKeepsPlaces(s, s', h);
    assert !AllDone(s'.headers[h]) by {
      assert s'.headers[h].cells[0].status.CellCounting?;
    }
  }

  lemma FreezeKeepsInv(types: A.Catalogue, w: World, ev: Event)
    requires Inv(types, w) && ev.FreezeSingle? && Enabled(types, w, ev) && Disciplined(w, ev)
    ensures Inv(types, Next(types, w, ev))
  {
    var s, s', h := w.counts, Next(types, w, ev).counts, ev.h;
    assert CountOpened(s, s', h);
    assert Locations(s'.headers[h].cells) == {ev.place.location} by {
      assert s'.headers[h].cells[0].location == ev.place.location;
    }
    assert s'.locations == Frozen(s.locations, {ev.place.location});
    OpeningKeepsCells(s, w.exceptions, w.stock.ledger, s', h);
    OpeningKeepsPlaces(s, s', h);
    assert !AllDone(s'.headers[h]) by {
      assert s'.headers[h].cells[0].status.CellCounting?;
    }
  }

  lemma DeactivateKeepsInv(types: A.Catalogue, w: World, ev: Event)
    requires Inv(types, w) && ev.Deactivate? && Enabled(types, w, ev) && Disciplined(w, ev)
    ensures Inv(types, Next(types, w, ev))
  {
    var s, s' := w.counts, Next(types, w, ev).counts;
    SameCellsEverywhere(s, s', w.exceptions, w.stock.ledger);
    forall k, j ensures Unfinished(s', k, j) <==> Unfinished(s, k, j) {
    }
    forall l | l in s'.locations && s'.locations[l].Inventory? ensures BusyAt(s', l) {
      assert BusyAt(s, l);
      var k, j :| Unfinished(s, k, j) && s.Cell(k, j).location == l;
      assert Unfinished(s', k, j);
    }
  }

  lemma MovementKeepsInv(types: A.Catalogue, w: World, ev: Event)
    requires Inv(types, w) && ev.OtherMovement? && Enabled(types, w, ev)
    ensures Inv(types, Next(types, w, ev))
  {
    var w' := Next(types, w, ev);
    forall e: Id ensures Adjustments(w'.stock.ledger, e) == Adjustments(w.stock.ledger, e) {
      OtherRowsAreNoAdjustments(w.stock, ev.movement, e);
    }
    forall h, i | w.counts.Has(h, i) ensures CellOk(w.exceptions, w'.stock.ledger, w.counts.Cell(h, i)) {
      CellOkPersists(w.exceptions, w.stock.ledger, w.exceptions, w'.stock.ledger, w.counts.Cell(h, i));
    }
  }

  lemma DecisionIsSound(types: A.Catalogue, w: World, ev: Event)
    requires A.AllSound(types, w.exceptions) && ev.Decide? && Enabled(types, w, ev)
    ensures A.AllSound(types, Next(types, w, ev).exceptions)
  {
    A.DecidedIsSound(types, w.exceptions[ev.e], ev.user, ev.verdict, ev.standing);
    A.SoundWith(types, w.exceptions, ev.e,
              A.Decided(w.exceptions[ev.e], types[w.exceptions[ev.e].kind].defaultSteps, ev.user, ev.verdict, ev.standing).value);
  }

  /** Steps of the workflow alone touch neither counts nor stock. */
  lemma WorkflowAlone(types: A.Catalogue, w: World, ev: Event)
    requires ev.WorkflowCall? || ev.Decide? || ev.AbandonDecision?
    ensures Next(types, w, ev).counts == w.counts && Next(types, w, ev).stock == w.stock
  {
  }

  lemma WorkflowKeepsAwaiting(types: A.Catalogue, w: World, ev: Event, w': World)
    requires AwaitingOk(w) && AdjustmentsLinked(w.counts, w.exceptions, w.stock.ledger) && w' == Next(types, w, ev)
    requires ev.WorkflowCall? || ev.Decide? || ev.AbandonDecision?
    ensures AwaitingOk(w')
  {
    ExceptionsEvolve(types, w, ev);
    WorkflowAlone(types, w, ev);
    if Enabled(types, w, ev) && ev.Decide? {
      assert Adjustments(w.stock.ledger, ev.e) == [];
      assert w'.exceptions[ev.e].status != w.exceptions[ev.e].status || A.Open(w'.exceptions[ev.e].status);
    }
  }

  lemma WorkflowKeepsSound(types: A.Catalogue, w: World, ev: Event)
    requires A.AllSound(types, w.exceptions) && (ev.WorkflowCall? || ev.Decide? || ev.AbandonDecision?)
    requires forall t :: t in types ==> types[t].defaultSteps >= 1
    ensures A.AllSound(types, Next(types, w, ev).exceptions)
  {
    if Enabled(types, w, ev) {
      if ev.WorkflowCall? {
        A.NextIsSound(types, w.exceptions, ev.event);
      } else if ev.Decide? {
        DecisionIsSound(types, w, ev);
      }
    }
  }

  /** Steps of the workflow alone, whether or not an effect is left to apply. */
  lemma WorkflowKeepsInv(types: A.Catalogue, w: World, ev: Event, w': World)
    requires Inv(types, w) && (ev.WorkflowCall? || ev.Decide? || ev.AbandonDecision?) && w' == Next(types, w, ev)
    requires forall t :: t in types ==> types[t].defaultSteps >= 1
    ensures Inv(types, w')
  {
    ExceptionsEvolve(types, w, ev);
    WorkflowAlone(types, w, ev);
    WorkflowKeepsSound(types, w, ev);
    WorkflowKeepsAwaiting(types, w, ev, w');
    CellsWithExceptions(w.counts, w.exceptions, w'.exceptions, w.stock.ledger);
  }

  lemma CellsWithExceptions(s: Counts, x: A.Exceptions, x': A.Exceptions, ledger: seq<Row>)
    requires CellsOk(s, x, ledger) && AdjustmentsLinked(s, x, ledger) && Evolves(x, x')
    ensures CellsOk(s, x', ledger) && AdjustmentsLinked(s, x', ledger)
  {
    forall h, i | s.Has(h, i) ensures CellOk(x', ledger, s.Cell(h, i)) {
      CellOkPersists(x, ledger, x', ledger, s.Cell(h, i));
    }
    LinkedPersists(s, x, s, x', ledger);
  }

  lemma StepKeepsInv(types: A.Catalogue, w: World, ev: Event)
    requires Inv(types, w) && (Enabled(types, w, ev) ==> Disciplined(w, ev))
    requires forall t :: t in types ==> types[t].defaultSteps >= 1
    ensures Inv(types, Next(types, w, ev))
  {
    if Enabled(types, w, ev) {
      match ev
      case PlanCount(_, _, _) => PlanKeepsInv(types, w, ev);
      case StartCount(_) => StartKeepsInv(types, w, ev);
      case CancelCount(_) => CancelKeepsInv(types, w, ev, Next(types, w, ev));
      case FreezeSingle(_, _, _) => FreezeKeepsInv(types, w, ev);
      case Submit(_, _, _, _) => SubmitKeepsInv(types, w, ev, Next(types, w, ev));
      case Decide(_, _, _, _, _) => WorkflowKeepsInv(types, w, ev, Next(types, w, ev));
      case ApplyDecision(e, h, i) =>
        if Attempt(w, e, h, i).Failure? {
          FailedAttemptKeepsInv(types, w, e, h, i);
        } else if w.exceptions[e].status.Approved? {
          ApprovalKeepsInv(types, w, e, h, i);
        } else {
          RejectionKeepsInv(types, w, e, h, i);
        }
      case AbandonDecision(_) => WorkflowKeepsInv(types, w, ev, Next(types, w, ev));
      case WorkflowCall(_) => WorkflowKeepsInv(types, w, ev, Next(types, w, ev));
      case Deactivate(_) => DeactivateKeepsInv(types, w, ev);
      case OtherMovement(_) => MovementKeepsInv(types, w, ev);
    }
  }

  ghost predicate Idle(locations: map<Id, LocationStatus>) {
    forall l :: l in locations ==> !locations[l].Inventory?
  }

  lemma {:induction false} InvOfRun(types: A.Catalogue, locations: map<Id, LocationStatus>, events: seq<Event>)
    requires forall t :: t in types ==> types[t].defaultSteps >= 1
    requires Idle(locations) && DisciplinedRun(types, Start(locations), events)
    ensures Inv(types, Run(types, Start(locations), events))
  {
    if events != [] {
      var front := events[..|events| - 1];
      InvOfRun(types, locations, front);
      StepKeepsInv(types, Run(types, Start(locations), front), events[|events| - 1]);
    }
  }

  lemma PlanKeepsInv(types: A.Catalogue, w: World, ev: Event)
    requires Inv(types, w) && ev.PlanCount? && Enabled(types, w, ev)
    ensures Inv(types, Next(types, w, ev))
  {
    var w' := Next(types, w, ev);
    OpeningKeepsCells(w.counts, w.exceptions, w.stock.ledger, w'.counts, ev.h);
    forall k, j ensures Unfinished(w'.counts, k, j) <==> Unfinished(w.counts, k, j) {
    }
    SameWork(w.counts, w'.counts);
  }

  lemma CancelKeepsInv(types: A.Catalogue, w: World, ev: Event, w': World)
    requires Inv(types, w) && ev.CancelCount? && Enabled(types, w, ev) && w' == Next(types, w, ev)
    ensures Inv(types, w')
  {
    assert w'.counts == w.counts.(headers := w.counts.headers[ev.h := w.counts.headers[ev.h].(status := HeaderCancelled)]);
    SameCellsEverywhere(w.counts, w'.counts, w.exceptions, w.stock.ledger);
    forall k, j ensures Unfinished(w'.counts, k, j) <==> Unfinished(w.counts, k, j) {
    }
    SameWork(w.counts, w'.counts);
    assert HeaderOk(w.counts.headers[ev.h]);
  }

  lemma SameCellsEverywhere(s: Counts, s': Counts, x: A.Exceptions, ledger: seq<Row>)
    requires CellsOk(s, x, ledger) && LinksDistinct(s) && AdjustmentsLinked(s, x, ledger)
    requires s'.headers.Keys == s.headers.Keys && forall h :: h in s.headers ==> s'.headers[h].cells == s.headers[h].cells
    ensures CellsOk(s', x, ledger) && LinksDistinct(s') && AdjustmentsLinked(s', x, ledger)
  {
    forall k, j | s'.Has(k, j) ensures s.Has(k, j) && s'.Cell(k, j) == s.Cell(k, j) {
    }
    forall e: Id | CellFinishedBy(s, e) ensures CellFinishedBy(s', e) {
      var k, j :| s.Has(k, j) && s.Cell(k, j).exception == Some(e) && s.Cell(k, j).status.CellDone?;
      assert s'.Has(k, j);
    }
  }

  // ---- What holds in every reachable state -------------------------------------------------

  /** Reached from an idle warehouse by a disciplined run. */
  ghost predicate Reachable(types: A.Catalogue, w: World) {
    exists locations, events :: Idle(locations) && DisciplinedRun(types, Start(locations), events) && w == Run(types, Start(locations), events)
  }

  lemma ReachableInv(types: A.Catalogue, w: World)
    requires forall t :: t in types ==> types[t].defaultSteps >= 1
    requires Reachable(types, w)
    ensures Inv(types, w)
  {
    var locations, events :| Idle(locations) && DisciplinedRun(types, Start(locations), events) && w == Run(types, Start(locations), events);
    InvOfRun(types, locations, events);
  }

  /**
   The rounds of the current cycle are numbered from one, at most three, the second by another
   operator and the third by a shift leader. A cell is open exactly when the tree awaits a round,
   and pends adjustment exactly when the tree confirms a divergence that no ledger row has settled.
   */
  lemma CountingFollowsTheRules(types: A.Catalogue, w: World, h: Id, i: nat)
    requires forall t :: t in types ==> types[t].defaultSteps >= 1
    requires Reachable(types, w) && w.counts.Has(h, i)
    ensures var c := w.counts.Cell(h, i);
            && RoundsOk(c.rounds)
            && (c.Countable() <==> c.Outcome().AwaitingRound?)
            && (c.exception.Some? <==> c.Outcome().Diverges?)
            && (c.status.CellAdjusting? <==> c.exception.Some? && Adjustments(w.stock.ledger, c.exception.value) == [])
            && (c.exception.Some? ==>
                  && c.exception.value in w.exceptions && c.FinalQty() != c.systemQty
                  && w.exceptions[c.exception.value].kind == ADJUSTMENT_KIND
                  && w.exceptions[c.exception.value].qty == Some(Divergence(c)))
  {
    ReachableInv(types, w);
    var c := w.counts.Cell(h, i);
    assert CellOk(w.exceptions, w.stock.ledger, c);
    if c.exception.Some? {
      assert LinkOk(w.exceptions, w.stock.ledger, c, c.exception.value);
    }
  }

  // ---- The warehouse an adjustment lands in ------------------------------------------------

  /** Every adjustment row is in the warehouse that the call which decided its exception named. */
  ghost predicate RowsNameCallers(w: World) {
    forall e :: Adjustments(w.stock.ledger, e) != [] ==>
      e in w.callers && Adjustments(w.stock.ledger, e)[0].warehouse == w.callers[e]
  }

  lemma OthersKeepCallers(types: A.Catalogue, w: World, ev: Event, e: Id, w': World)
    requires AdjustmentsLinked(w.counts, w.exceptions, w.stock.ledger) && Enabled(types, w, ev) && w' == Next(types, w, ev)
    requires Adjustments(w.stock.ledger, e) != [] && e in w.callers
    ensures e in w'.callers && w'.callers[e] == w.callers[e]
  {
  }

  lemma OthersWriteNoAdjustment(types: A.Catalogue, w: World, ev: Event, e: Id, w': World)
    requires Enabled(types, w, ev) && w' == Next(types, w, ev) && !ev.ApplyDecision?
    ensures Adjustments(w'.stock.ledger, e) == Adjustments(w.stock.ledger, e)
  {
    if ev.OtherMovement? {
      OtherRowsAreNoAdjustments(w.stock, ev.movement, e);
    }
  }

  lemma ApplyNamesCallers(types: A.Catalogue, w: World, e: Id, h: Id, i: nat, w': World)
    requires Inv(types, w) && RowsNameCallers(w) && Enabled(types, w, ApplyDecision(e, h, i)) && w' == Next(types, w, ApplyDecision(e, h, i))
    ensures RowsNameCallers(w')
  {
    assert w'.callers == w.callers;
    if Attempt(w, e, h, i).Success? && w.exceptions[e].status.Approved? {
      ApprovalWrites(types, w, e, h, i, w');
    } else {
      assert w'.stock == w.stock;
    }
  }

  lemma StepNamesCallers(types: A.Catalogue, w: World, ev: Event, w': World)
    requires Inv(types, w) && RowsNameCallers(w) && w' == Next(types, w, ev)
    ensures RowsNameCallers(w')
  {
    if Enabled(types, w, ev) {
      if ev.ApplyDecision? {
        ApplyNamesCallers(types, w, ev.e, ev.h, ev.i, w');
      } else {
        forall e | Adjustments(w'.stock.ledger, e) != []
          ensures e in w'.callers && Adjustments(w'.stock.ledger, e)[0].warehouse == w'.callers[e]
        {
          OthersWriteNoAdjustment(types, w, ev, e, w');
          OthersKeepCallers(types, w, ev, e, w');
        }
      }
    }
  }

  lemma {:induction false} RunNamesCallers(types: A.Catalogue, locations: map<Id, LocationStatus>, events: seq<Event>)
    requires forall t :: t in types ==> types[t].defaultSteps >= 1
    requires Idle(locations) && DisciplinedRun(types, Start(locations), events)
    ensures RowsNameCallers(Run(types, Start(locations), events))
  {
    if events != [] {
      var front := events[..|events| - 1];
      RunNamesCallers(types, locations, front);
      InvOfRun(types, locations, front);
      StepNamesCallers(types, Run(types, Start(locations), front), events[|events| - 1], Run(types, Start(locations), events));
    }
  }

  /**
   No exception is ever adjusted twice. The one row it may have moves exactly counted minus system of
   its cell's content, unpalletised, was approved in full by qualified people, and is in the warehouse
   that the deciding call named: on the cell's own key if and only if that is the cell's warehouse.
   */
  lemma AdjustmentsAreExactAndUnique(types: A.Catalogue, w: World, e: Id)
    requires forall t :: t in types ==> types[t].defaultSteps >= 1
    requires Reachable(types, w)
    ensures |Adjustments(w.stock.ledger, e)| <= 1
    ensures Adjustments(w.stock.ledger, e) != [] ==>
      var row := Adjustments(w.stock.ledger, e)[0];
      && e in w.exceptions && w.exceptions[e].status.Approved? && A.ProperChain(w.exceptions[e]) && A.AllApprove(w.exceptions[e].decisions)
      && e in w.callers && row.warehouse == w.callers[e]
      && exists h, i ::
           && w.counts.Has(h, i) && w.counts.Cell(h, i).exception == Some(e) && w.counts.Cell(h, i).status.CellDone?
           && IsExactAdjustment(row, w.counts.Cell(h, i), e)
           && (OrElse(row.CreditLeg(), row.DebitLeg()) == Some(w.counts.Cell(h, i).OwnLeg())
               <==> w.callers[e] == w.counts.Cell(h, i).warehouse)
  {
    ReachableInv(types, w);
    ReachableNamesCallers(types, w);
    if Adjustments(w.stock.ledger, e) != [] {
      assert CellFinishedBy(w.counts, e);
      var h, i :| w.counts.Has(h, i) && w.counts.Cell(h, i).exception == Some(e) && w.counts.Cell(h, i).status.CellDone?;
      assert CellOk(w.exceptions, w.stock.ledger, w.counts.Cell(h, i));
      assert LinkOk(w.exceptions, w.stock.ledger, w.counts.Cell(h, i), e);
      assert A.Sound(types, w.exceptions[e]);
    }
  }

  lemma ReachableNamesCallers(types: A.Catalogue, w: World)
    requires forall t :: t in types ==> types[t].defaultSteps >= 1
    requires Reachable(types, w)
    ensures RowsNameCallers(w)
  {
    var locations, events :| Idle(locations) && DisciplinedRun(types, Start(locations), events) && w == Run(types, Start(locations), events);
    RunNamesCallers(types, locations, events);
  }

  /**
   A location is frozen exactly while a started count has an unfinished cell there, and then one
   count only. A count that was started is completed exactly when all its cells are.
   */
  lemma FrozenExactlyWhileUnfinished(types: A.Catalogue, w: World)
    requires forall t :: t in types ==> types[t].defaultSteps >= 1
    requires Reachable(types, w)
    ensures forall l :: l in w.counts.locations ==> (w.counts.locations[l].Inventory? <==> BusyAt(w.counts, l))
    ensures forall h, i, h', i' ::
      Unfinished(w.counts, h, i) && Unfinished(w.counts, h', i') && w.counts.Cell(h, i).location == w.counts.Cell(h', i').location ==> h == h'
    ensures forall h :: h in w.counts.headers && (w.counts.headers[h].Started() || w.counts.headers[h].status.HeaderCompleted?) ==>
      && (w.counts.headers[h].status.HeaderCompleted? <==> AllDone(w.counts.headers[h]))
      && (w.counts.headers[h].status.HeaderCompleted? ==> w.counts.headers[h].accuracy == Some(AccuracyOf(w.counts.headers[h].cells)))
  {
    ReachableInv(types, w);
    forall h | h in w.counts.headers ensures HeaderOk(w.counts.headers[h]) {
    }
  }

  /** A rejected adjustment opens a fresh cycle and touches no stock. */
  lemma RejectionOpensAFreshCycle(types: A.Catalogue, w: World, e: Id, h: Id, i: nat)
    requires Enabled(types, w, ApplyDecision(e, h, i)) && !w.exceptions[e].status.Approved?
    ensures var w' := Next(types, w, ApplyDecision(e, h, i));
            && w'.stock == w.stock && w'.counts.Has(h, i)
            && var c, c' := w.counts.Cell(h, i), w'.counts.Cell(h, i);
            && c'.Countable() && c'.Outcome() == AwaitingRound(1, None, false) && c'.exception.None?
            && c'.past == c.past + [c.rounds] && c'.systemQty == c.systemQty
  {
  }

  // ---- The count that was accepted becomes what is available --------------------------------

  lemma AdjustmentMovesTheDifference(s: Stock, c: Cell, e: Id, at: Id, leg: Leg)
    requires c.product.Some? && c.rounds != [] && c.FinalQty() != c.systemQty && Applied(s, AdjustmentMovement(c, e, at)).Success?
    ensures Qty(Applied(s, AdjustmentMovement(c, e, at)).value.balances, leg)
            == Qty(s.balances, leg) + (if leg == c.LegAt(at) then c.FinalQty() - c.systemQty else 0)
  {
    AdjustmentPosting(c, e, at);
  }

  /**
   An approved adjustment changes the key of the caller's warehouse alone. So what is available on the
   cell's own key is the accepted count afterwards if and only if it was the system's count before, when
   the caller named the cell's warehouse, and otherwise only if it was the accepted count already.
   */
  lemma AcceptedCountBecomesAvailable(types: A.Catalogue, w: World, e: Id, h: Id, i: nat)
    requires Inv(types, w) && Enabled(types, w, ApplyDecision(e, h, i)) && w.exceptions[e].status.Approved? && Attempt(w, e, h, i).Success?
    ensures var c, w' := w.counts.Cell(h, i), Next(types, w, ApplyDecision(e, h, i));
            && c.product.Some?
            && (forall leg :: Qty(w'.stock.balances, leg) == Qty(w.stock.balances, leg)
                                + (if leg == c.LegAt(w.callers[e]) then c.FinalQty() - c.systemQty else 0))
            && (Qty(w'.stock.balances, c.OwnLeg()) == c.FinalQty() <==>
                  Qty(w.stock.balances, c.OwnLeg()) == if w.callers[e] == c.warehouse then c.systemQty else c.FinalQty())
  {
    AwaitedCell(types, w, e, h, i);
    var c := w.counts.Cell(h, i);
    forall leg ensures Qty(Next(types, w, ApplyDecision(e, h, i)).stock.balances, leg) == Qty(w.stock.balances, leg)
                         + (if leg == c.LegAt(w.callers[e]) then c.FinalQty() - c.systemQty else 0) {
      AdjustmentMovesTheDifference(w.stock, c, e, w.callers[e], leg);
    }
  }

  /** What a step posts, if anything. */
  function PostedBy(types: A.Catalogue, w: World, ev: Event): Option<Movement> {
    if !Enabled(types, w, ev) then None
    else if ev.OtherMovement? then Some(ev.movement)
    else if ev.ApplyDecision? && w.exceptions[ev.e].status.Approved? && Attempt(w, ev.e, ev.h, ev.i).Success? then
      Some(AdjustmentMovement(w.counts.Cell(ev.h, ev.i), ev.e, w.callers[ev.e]))
    else None
  }

  predicate Spares(m: Option<Movement>, leg: Leg) {
    m.Some? && PostingOf(m.value).Success? ==> PostingOf(m.value).value.debit != Some(leg) && PostingOf(m.value).value.credit != Some(leg)
  }

  predicate Quiet(types: A.Catalogue, w: World, events: seq<Event>, leg: Leg) {
    events == [] ||
    (&& Quiet(types, w, events[..|events| - 1], leg)
     && Spares(PostedBy(types, Run(types, w, events[..|events| - 1]), events[|events| - 1]), leg))
  }

  lemma SparedStepKeepsQty(types: A.Catalogue, w: World, ev: Event, leg: Leg)
    requires Spares(PostedBy(types, w, ev), leg)
    ensures Qty(Next(types, w, ev).stock.balances, leg) == Qty(w.stock.balances, leg)
  {
  }

  lemma {:induction false} QuietRunKeepsQty(types: A.Catalogue, w: World, events: seq<Event>, leg: Leg)
    requires Quiet(types, w, events, leg)
    ensures Qty(Run(types, w, events).stock.balances, leg) == Qty(w.stock.balances, leg)
  {
    if events != [] {
      QuietRunKeepsQty(types, w, events[..|events| - 1], leg);
      SparedStepKeepsQty(types, Run(types, w, events[..|events| - 1]), events[|events| - 1], leg);
    }
  }

  lemma {:induction false} DisciplinedRunKeepsInv(types: A.Catalogue, w: World, events: seq<Event>)
    requires Inv(types, w) && DisciplinedRun(types, w, events)
    requires forall t :: t in types ==> types[t].defaultSteps >= 1
    ensures Inv(types, Run(types, w, events))
  {
    if events != [] {
      var front := events[..|events| - 1];
      DisciplinedRunKeepsInv(types, w, front);
      StepKeepsInv(types, Run(types, w, front), events[|events| - 1]);
    }
  }

  /** If nothing else moved the cell's own key since it was read, the approved adjustment leaves exactly the accepted count on it if and only if the caller named the cell's warehouse. */
  lemma UndisturbedCountIsExact(types: A.Catalogue, w: World, events: seq<Event>, e: Id, h: Id, i: nat)
    requires forall t :: t in types ==> types[t].defaultSteps >= 1
    requires Inv(types, w) && DisciplinedRun(types, w, events)
    requires var u := Run(types, w, events);
             && Enabled(types, u, ApplyDecision(e, h, i)) && u.exceptions[e].status.Approved? && Attempt(u, e, h, i).Success?
             && var c := u.counts.Cell(h, i);
             && Qty(w.stock.balances, c.OwnLeg()) == c.systemQty && Quiet(types, w, events, c.OwnLeg())
    ensures var u := Run(types, w, events);
            var c := u.counts.Cell(h, i);
            Qty(Next(types, u, ApplyDecision(e, h, i)).stock.balances, c.OwnLeg()) == c.FinalQty() <==> u.callers[e] == c.warehouse
  {
    var u := Run(types, w, events);
    QuietRunKeepsQty(types, w, events, u.counts.Cell(h, i).OwnLeg());
    DisciplinedRunKeepsInv(types, w, events);
    AwaitedCell(types, u, e, h, i);
    AcceptedCountBecomesAvailable(types, u, e, h, i);
  }
}
