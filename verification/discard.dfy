/** Discarding stock: a ledger effect that only an approved exception can cause, and only once. */
module Discard {
  import opened Common
  import opened StockEffects
  import opened StockLedger
  import A = Approval

  /** The exception type of a discard; how many approvals it takes is the catalogue's business. */
  const DISCARD_KIND: Id := 1

  datatype Resolution = Unresolved | Discarded(movement: nat) | Refused

  datatype Request = Request(
    tenant: Id, warehouse: Id, product: Id, batch: Option<Id>, location: Option<Id>, pallet: Option<Id>,
    sourceBucket: Bucket, qty: int, requestedBy: Id, exception: Option<Id>, resolution: Resolution)
  {
    /** The bucket to take from, in some warehouse. */
    function LegAt(at: Id): Leg {
      Leg(Key(tenant, at, product, batch, location, pallet), sourceBucket)
    }

    /** The request's own bucket: the one in its own warehouse. */
    function OwnLeg(): Leg {
      LegAt(warehouse)
    }
  }

  datatype DiscardError =
    | RequestNotFound
    | AlreadyResolved
    | NoExceptionLinked
    | Workflow(error: A.WorkflowError)
    | Movement(cause: MovementError)

  /** The discard as the deciding call posts it: in the warehouse that call names. */
  function DescarteMovement(r: Request, exception: Id, at: Id): Movement {
    StockLedger.Movement.Movement(
      r.tenant, at, None, Descarte, r.product, r.batch, r.qty, r.location, r.pallet, None, None,
      Some(r.sourceBucket), None, None, None, Some(exception), false)
  }

  lemma DescartePosting(r: Request, exception: Id, at: Id)
    requires r.qty > 0
    ensures var p := PostingOf(DescarteMovement(r, exception, at));
            && p.Success? && p.value.debit == Some(r.LegAt(at)) && p.value.credit.None?
            && |p.value.rows| == 1
            && var row := p.value.rows[0];
            && row.movementType.Descarte? && row.requirement == Some(exception) && row.qty == r.qty && row.warehouse == at
            && row.DebitLeg() == Some(r.LegAt(at)) && row.CreditLeg().None?
  {
  }

  /**
   A discard is posted exactly when the bucket named by the request holds its quantity in the caller's warehouse; it takes
   that from this bucket alone, and leaves one row, on account of the exception.
   */
  lemma DiscardTakesExactly(s: Stock, r: Request, exception: Id, at: Id)
    ensures var done := Applied(s, DescarteMovement(r, exception, at));
            var leg := Leg(Key(r.tenant, at, r.product, r.batch, r.location, r.pallet), r.sourceBucket);
            && (done.Success? <==> 0 < r.qty <= Qty(s.balances, leg))
            && (done.Failure? ==> done.error == if r.qty <= 0 then InvalidQty else InsufficientBalance)
            && (done.Success? ==>
                  && (forall l: Leg :: Qty(done.value.balances, l) == Qty(s.balances, l) - (if l == leg then r.qty else 0))
                  && |done.value.ledger| == |s.ledger| + 1 && s.ledger <= done.value.ledger
                  && var row := done.value.ledger[|s.ledger|];
                  && row.movementType == Descarte && row.qty == r.qty && row.requirement == Some(exception) && row.task == None
                  && row.documentRef == None && row.DebitLeg() == Some(leg) && row.CreditLeg() == None)
  {
    if r.qty > 0 {
      DescartePosting(r, exception, at);
    }
  }

  // ---- The service --------------------------------------------------------------------------

  class DiscardService {
    const workflow: A.ExceptionService
    const stock: StockDatabase
    var requests: map<Id, Request>

    constructor (workflow: A.ExceptionService, stock: StockDatabase)
      ensures this.workflow == workflow && this.stock == stock && requests == map[]
    {
      this.workflow := workflow;
      this.stock := stock;
      requests := map[];
    }

    /**
     One uninterrupted call: the workflow decides first; only a final approval takes the stock, and
     a refused movement leaves the request unresolved although the exception stays approved. The
     warehouse `at` is the caller's; nothing compares it with the request's.
     */
    method DecideDiscard(id: Id, at: Id, user: Id, verdict: A.Verdict, standing: A.Standing)
      returns (r: Result<A.Exception, DiscardError>)
      requires forall e :: e in workflow.exceptions ==> workflow.exceptions[e].kind in workflow.types
      modifies this, workflow, stock
      // Nothing to decide, or the workflow refuses: nothing changes.
      ensures id !in old(requests) ==> r == Failure(RequestNotFound)
      ensures id in old(requests) && !old(requests)[id].resolution.Unresolved? ==> r == Failure(AlreadyResolved)
      ensures id in old(requests) && old(requests)[id].resolution.Unresolved? && old(requests)[id].exception.None? ==>
        r == Failure(NoExceptionLinked)
      ensures r.Failure? && !r.error.Movement? ==>
        requests == old(requests) && workflow.exceptions == old(workflow.exceptions) && stock.State() == old(stock.State())
      // Otherwise the decision is recorded, whatever becomes of its effect.
      ensures id in old(requests) && old(requests)[id].resolution.Unresolved? && old(requests)[id].exception.Some? ==>
        var request, e := old(requests)[id], old(requests)[id].exception.value;
        match A.DecidedIn(workflow.types, old(workflow.exceptions), e, user, verdict, standing)
        case Failure(error) => r == Failure(Workflow(error))
        case Success(decided) =>
          && workflow.exceptions == old(workflow.exceptions)[e := decided]
          && if A.Open(decided.status) then
               r == Success(decided) && requests == old(requests) && stock.State() == old(stock.State())
             else if !decided.status.Approved? then
               && r == Success(decided) && stock.State() == old(stock.State())
               && requests == old(requests)[id := request.(resolution := Refused)]
             else
               match Applied(old(stock.State()), DescarteMovement(request, e, at))
               case Failure(cause) =>
                 && r == Failure(DiscardError.Movement(cause))
                 && requests == old(requests) && stock.State() == old(stock.State())
               case Success(moved) =>
                 && r == Success(decided) && stock.State() == moved
                 && requests == old(requests)[id := request.(resolution := Discarded(|old(stock.ledger)|))]
    {
      if id !in requests {
        return Failure(RequestNotFound);
      }
      var request := requests[id];
      if !request.resolution.Unresolved? {
        return Failure(AlreadyResolved);
      }
      if request.exception.None? {
        return Failure(NoExceptionLinked);
      }
      var decided := workflow.Decide(request.exception.value, user, verdict, standing);
      if decided.Failure? {
        return Failure(Workflow(decided.error));
      }
      var exception := decided.value;
      if A.Open(exception.status) {
        return Success(exception);
      }
      if exception.status.Approved? {
        var movement := stock.Apply(DescarteMovement(request, request.exception.value, at));
        if movement.Failure? {
          return Failure(DiscardError.Movement(movement.error));
        }
        requests := requests[id := request.(resolution := Discarded(movement.value.movementIds[0]))];
      } else {
        requests := requests[id := request.(resolution := Refused)];
      }
      return Success(exception);
    }
  }

  // ---- Interleaved runs ---------------------------------------------------------------------

  /**
   The tables a run works on. `awaiting` holds the requests whose exception some call has just
   decided for good and whose effect that same call has still to apply, in a second transaction;
   `callers` has the warehouse that call named.
   */
  datatype World = World(
    exceptions: A.Exceptions, stock: Stock, requests: map<Id, Request>, awaiting: set<Id>, callers: map<Id, Id>)

  datatype Event =
    | RequestDiscard(id: Id, request: Request)
    | OpenException(id: Id, exception: Id, input: A.CreateInput, configured: seq<A.Authority>)
    | WorkflowCall(event: A.Event)
    | DecideDiscard(id: Id, at: Id, user: Id, verdict: A.Verdict, standing: A.Standing)
    | ApplyDecision(id: Id)
    | AbandonDecision(id: Id)
    | OtherMovement(movement: Movement)

  predicate Enabled(types: A.Catalogue, w: World, ev: Event) {
    match ev
    case RequestDiscard(id, request) =>
      id !in w.requests && request.qty > 0 && request.exception.None? && request.resolution.Unresolved?
    case OpenException(id, exception, input, configured) =>
      && id in w.requests && w.requests[id].exception.None? && exception !in w.exceptions
      && input.kind == DISCARD_KIND && input.entity == id && input.qty == Some(w.requests[id].qty)
      && input.warehouse == w.requests[id].warehouse && input.requestedBy == w.requests[id].requestedBy
      && A.Created(types, configured, input).Success?
    case WorkflowCall(event) => true
    // The status of the request was read before the decision and may be stale, so it is no guard.
    case DecideDiscard(id, at, user, verdict, standing) =>
      && id in w.requests && w.requests[id].exception.Some?
      && var e := w.requests[id].exception.value;
      && e in w.exceptions && w.exceptions[e].kind in types
      && A.Decided(w.exceptions[e], types[w.exceptions[e].kind].defaultSteps, user, verdict, standing).Success?
    case ApplyDecision(id) => id in w.awaiting && id in w.callers && id in w.requests && w.requests[id].exception.Some?
                              && w.requests[id].exception.value in w.exceptions
    case AbandonDecision(id) => id in w.awaiting
    case OtherMovement(movement) => !movement.movementType.Descarte?
  }

  function Next(types: A.Catalogue, w: World, ev: Event): World {
    if !Enabled(types, w, ev) then w
    else
      match ev
      case RequestDiscard(id, request) => w.(requests := w.requests[id := request])
      case OpenException(id, exception, input, configured) =>
        w.(exceptions := w.exceptions[exception := A.Created(types, configured, input).value],
           requests := w.requests[id := w.requests[id].(exception := Some(exception))])
      case WorkflowCall(event) => w.(exceptions := A.Next(types, w.exceptions, event))
      case DecideDiscard(id, at, user, verdict, standing) =>
        var e := w.requests[id].exception.value;
        var decided := A.Decided(w.exceptions[e], types[w.exceptions[e].kind].defaultSteps, user, verdict, standing).value;
        w.(exceptions := w.exceptions[e := decided],
           awaiting := if A.Open(decided.status) then w.awaiting else w.awaiting + {id},
           callers := if A.Open(decided.status) then w.callers else w.callers[id := at])
      case ApplyDecision(id) =>
        var request := w.requests[id];
        var e := request.exception.value;
        if w.exceptions[e].status.Approved? then
          var applied := Applied(w.stock, DescarteMovement(request, e, w.callers[id]));
          if applied.Failure? then w.(awaiting := w.awaiting - {id})
          else w.(stock := applied.value, awaiting := w.awaiting - {id},
                  requests := w.requests[id := request.(resolution := Discarded(|w.stock.ledger|))])
        else w.(awaiting := w.awaiting - {id}, requests := w.requests[id := request.(resolution := Refused)])
      case AbandonDecision(id) => w.(awaiting := w.awaiting - {id})
      case OtherMovement(movement) => w.(stock := Step(w.stock, movement))
  }

  const START := World(map[], EMPTY_STOCK, map[], {}, map[])

  function Run(types: A.Catalogue, events: seq<Event>): World {
    if events == [] then START else Next(types, Run(types, events[..|events| - 1]), events[|events| - 1])
  }

  /** Exception `e` was opened for this request: its kind, its entity, its quantity and who asked. */
  ghost predicate IsAbout(x: A.Exceptions, e: Id, id: Id, request: Request) {
    && e in x && x[e].kind == DISCARD_KIND && x[e].entity == id
    && x[e].qty == Some(request.qty) && x[e].requestedBy == request.requestedBy
  }

  /**
   A discard row whose request is settled by it and whose exception, about that request, was approved,
   in the warehouse that the deciding call named.
   */
  ghost predicate Backs(w: World, id: Id, row: Row) {
    && id in w.requests && id !in w.awaiting && w.requests[id].exception.Some?
    && w.requests[id].resolution.Discarded? && w.requests[id].resolution.movement < |w.stock.ledger|
    && w.stock.ledger[w.requests[id].resolution.movement] == row
    && row.requirement == w.requests[id].exception
    && IsAbout(w.exceptions, row.requirement.value, id, w.requests[id]) && w.exceptions[row.requirement.value].status.Approved?
    && id in w.callers && row.qty == w.requests[id].qty
    && row.DebitLeg() == Some(w.requests[id].LegAt(w.callers[id])) && row.CreditLeg().None?
  }

  ghost predicate Backed(w: World, row: Row) {
    exists id :: Backs(w, id, row)
  }

  ghost predicate LinksOk(w: World) {
    && (forall id :: id in w.requests ==> w.requests[id].qty > 0)
    && (forall id :: id in w.requests && w.requests[id].exception.Some? ==>
          IsAbout(w.exceptions, w.requests[id].exception.value, id, w.requests[id]))
    && (forall id :: id in w.awaiting ==>
          && id in w.callers && id in w.requests && w.requests[id].exception.Some? && w.requests[id].resolution.Unresolved?
          && !A.Open(w.exceptions[w.requests[id].exception.value].status))
  }

  ghost predicate LedgerOk(w: World) {
    && (forall i :: 0 <= i < |w.stock.ledger| && w.stock.ledger[i].movementType.Descarte? ==> Backed(w, w.stock.ledger[i]))
    && (forall i, j :: 0 <= i < j < |w.stock.ledger|
          && w.stock.ledger[i].movementType.Descarte? && w.stock.ledger[j].movementType.Descarte?
          ==> w.stock.ledger[i].requirement != w.stock.ledger[j].requirement)
  }

  /** What the resolution of a request says of the ledger and of its exception. */
  ghost predicate ResolutionOk(w: World, id: Id)
    requires id in w.requests
  {
    match w.requests[id].resolution
    case Unresolved => true
    case Discarded(m) => m < |w.stock.ledger| && w.stock.ledger[m].movementType.Descarte? && Backs(w, id, w.stock.ledger[m])
    case Refused =>
      && w.requests[id].exception.Some? && w.requests[id].exception.value in w.exceptions
      && var status := w.exceptions[w.requests[id].exception.value].status;
      !A.Open(status) && !status.Approved?
  }

  ghost predicate ResolutionsOk(w: World) {
    forall id :: id in w.requests ==> ResolutionOk(w, id)
  }

  ghost predicate Inv(types: A.Catalogue, w: World) {
    && LinksOk(w) && LedgerOk(w) && ResolutionsOk(w)
    && A.AllSound(types, w.exceptions)
  }

  lemma RowsCarryTheirType(m: Movement)
    requires PostingOf(m).Success?
    ensures forall i :: 0 <= i < |PostingOf(m).value.rows| ==> PostingOf(m).value.rows[i].movementType == m.movementType
  {
  }

  /** A settled request keeps backing its row as long as nothing is taken from the ledger. */
  lemma BackingPersists(w: World, w': World, id: Id, row: Row)
    requires Backs(w, id, row) && Grows(w.exceptions, w'.exceptions) && w.stock.ledger <= w'.stock.ledger
    requires id in w'.requests && w'.requests[id] == w.requests[id] && id !in w'.awaiting
    requires id in w.callers ==> id in w'.callers && w'.callers[id] == w.callers[id]
    ensures Backs(w', id, row)
  {
  }

  lemma SoundnessKept(types: A.Catalogue, w: World, ev: Event, w': World)
    requires A.AllSound(types, w.exceptions) && Enabled(types, w, ev) && w' == Next(types, w, ev)
    requires forall t :: t in types ==> types[t].defaultSteps >= 1
    ensures A.AllSound(types, w'.exceptions)
  {
    if ev.WorkflowCall? {
      A.NextIsSound(types, w.exceptions, ev.event);
    } else if ev.DecideDiscard? {
      var e := w.requests[ev.id].exception.value;
      A.DecidedIsSound(types, w.exceptions[e], ev.user, ev.verdict, ev.standing);
      A.SoundWith(types, w.exceptions, e,
                A.Decided(w.exceptions[e], types[w.exceptions[e].kind].defaultSteps, ev.user, ev.verdict, ev.standing).value);
    } else if ev.OpenException? {
      A.SoundWith(types, w.exceptions, ev.exception, A.Created(types, ev.configured, ev.input).value);
    }
  }

  /** Exceptions are only added; they keep what they are about, and decided ones do not change. */
  ghost predicate Grows(x: A.Exceptions, y: A.Exceptions) {
    forall e :: e in x ==>
      && e in y && y[e].kind == x[e].kind && y[e].entity == x[e].entity
      && y[e].qty == x[e].qty && y[e].requestedBy == x[e].requestedBy
      && (!A.Open(x[e].status) ==> y[e] == x[e])
  }

  lemma ExceptionsGrow(types: A.Catalogue, w: World, ev: Event)
    ensures Grows(w.exceptions, Next(types, w, ev).exceptions)
  {
    if ev.WorkflowCall? {
      forall e | e in w.exceptions ensures e in A.Next(types, w.exceptions, ev.event) {
      }
    }
  }

  /** Links survive growing exceptions, whatever happens to requests that keep their exception. */
  lemma LinksPersist(w: World, w': World)
    requires LinksOk(w) && Grows(w.exceptions, w'.exceptions) && w'.requests.Keys == w.requests.Keys
    requires forall id :: id in w.requests ==>
      && w'.requests[id].exception == w.requests[id].exception
      && w'.requests[id].qty == w.requests[id].qty && w'.requests[id].requestedBy == w.requests[id].requestedBy
    requires forall id :: id in w'.awaiting ==> id in w'.callers && id in w.requests && w'.requests[id].resolution.Unresolved?
    requires forall id :: id in w'.awaiting ==>
      id in w.awaiting || (w.requests[id].exception.Some? && !A.Open(w'.exceptions[w.requests[id].exception.value].status))
    ensures LinksOk(w')
  {
  }

  lemma SameRequests(types: A.Catalogue, w: World, ev: Event)
    requires Enabled(types, w, ev) && !ev.OpenException? && !ev.RequestDiscard?
    ensures Next(types, w, ev).requests.Keys == w.requests.Keys
    ensures forall id :: id in w.requests ==>
      && Next(types, w, ev).requests[id].exception == w.requests[id].exception
      && Next(types, w, ev).requests[id].qty == w.requests[id].qty
      && Next(types, w, ev).requests[id].requestedBy == w.requests[id].requestedBy
  {
  }

  /** Only a call on an open exception comes to await, and its exception is then decided. */
  lemma AwaitingWasOpen(types: A.Catalogue, w: World, ev: Event, id: Id)
    requires LinksOk(w) && Enabled(types, w, ev) && id in Next(types, w, ev).awaiting && id !in w.awaiting
    ensures id in w.requests && w.requests[id].exception.Some? && w.requests[id].exception.value in w.exceptions
    ensures A.Open(w.exceptions[w.requests[id].exception.value].status)
    ensures w.requests[id].exception.value in Next(types, w, ev).exceptions
            && !A.Open(Next(types, w, ev).exceptions[w.requests[id].exception.value].status)
  {
  }

  /** An open exception leaves its request unresolved. */
  lemma OpenIsUnresolved(types: A.Catalogue, w: World, id: Id)
    requires Inv(types, w) && id in w.requests && w.requests[id].exception.Some?
    requires A.Open(w.exceptions[w.requests[id].exception.value].status)
    ensures w.requests[id].resolution.Unresolved?
  {
    assert ResolutionOk(w, id);
  }

  lemma NewLinks(types: A.Catalogue, w: World, ev: Event, w': World)
    requires LinksOk(w) && Enabled(types, w, ev) && w' == Next(types, w, ev) && (ev.OpenException? || ev.RequestDiscard?)
    ensures LinksOk(w')
  {
    if ev.OpenException? {
      assert w'.requests == w.requests[ev.id := w.requests[ev.id].(exception := Some(ev.exception))];
    } else {
      assert w'.requests == w.requests[ev.id := ev.request];
    }
  }

  lemma AwaitingIsOk(types: A.Catalogue, w: World, ev: Event, id: Id, w': World)
    requires Inv(types, w) && Enabled(types, w, ev) && w' == Next(types, w, ev) && id in w'.awaiting && id !in w.awaiting
    ensures id in w.requests && w.requests[id].exception.Some? && w.requests[id].exception.value in w'.exceptions
    ensures w'.requests == w.requests && w.requests[id].resolution.Unresolved? && id in w'.callers
    ensures !A.Open(w'.exceptions[w.requests[id].exception.value].status)
  {
    AwaitingWasOpen(types, w, ev, id);
    OpenIsUnresolved(types, w, id);
  }

  lemma AwaitedStaysUnresolved(types: A.Catalogue, w: World, ev: Event, id: Id, w': World)
    requires LinksOk(w) && Enabled(types, w, ev) && w' == Next(types, w, ev) && id in w'.awaiting && id in w.awaiting
    ensures id in w'.callers && id in w'.requests && w'.requests[id].resolution.Unresolved?
  {
  }

  lemma LinksKept(types: A.Catalogue, w: World, ev: Event, w': World)
    requires Inv(types, w) && Enabled(types, w, ev) && w' == Next(types, w, ev)
    ensures LinksOk(w')
  {
    if ev.OpenException? || ev.RequestDiscard? {
      NewLinks(types, w, ev, w');
    } else {
      ExceptionsGrow(types, w, ev);
      SameRequests(types, w, ev);
      forall id | id in w'.awaiting
        ensures id in w'.callers && id in w.requests && w'.requests[id].resolution.Unresolved?
        ensures id in w.awaiting || (w.requests[id].exception.Some? && w.requests[id].exception.value in w'.exceptions
                                     && !A.Open(w'.exceptions[w.requests[id].exception.value].status))
      {
        if id in w.awaiting {
          AwaitedStaysUnresolved(types, w, ev, id, w');
        } else {
          AwaitingIsOk(types, w, ev, id, w');
        }
      }
      LinksPersist(w, w');
    }
  }

  /** A settled request is not touched again, and does not come to await anything. */
  lemma SettledIsUntouched(types: A.Catalogue, w: World, ev: Event, id: Id)
    requires Inv(types, w) && Enabled(types, w, ev) && id in w.requests && !w.requests[id].resolution.Unresolved?
    ensures var w' := Next(types, w, ev);
            && id in w'.requests && w'.requests[id] == w.requests[id] && id !in w'.awaiting
            && (id in w.callers ==> id in w'.callers && w'.callers[id] == w.callers[id])
  {
    assert ResolutionOk(w, id);
    if id in Next(types, w, ev).awaiting {
      AwaitingWasOpen(types, w, ev, id);
    }
  }

  lemma LedgerOnlyGrows(types: A.Catalogue, w: World, ev: Event)
    ensures w.stock.ledger <= Next(types, w, ev).stock.ledger
  {
  }

  /** What backed a row before a step backs it afterwards. */
  lemma BackingKept(types: A.Catalogue, w: World, ev: Event, id: Id, row: Row)
    requires Inv(types, w) && Enabled(types, w, ev) && Backs(w, id, row)
    ensures Backs(Next(types, w, ev), id, row)
  {
    SettledIsUntouched(types, w, ev, id);
    ExceptionsGrow(types, w, ev);
    LedgerOnlyGrows(types, w, ev);
    BackingPersists(w, Next(types, w, ev), id, row);
  }

  /** Steps other than applying a decision write no discard row. */
  lemma NoNewDiscardRow(types: A.Catalogue, w: World, ev: Event, i: nat)
    requires Enabled(types, w, ev) && !ev.ApplyDecision?
    requires i < |Next(types, w, ev).stock.ledger| && Next(types, w, ev).stock.ledger[i].movementType.Descarte?
    ensures i < |w.stock.ledger| && Next(types, w, ev).stock.ledger[i] == w.stock.ledger[i]
  {
    if ev.OtherMovement? && Applied(w.stock, ev.movement).Success? {
      RowsCarryTheirType(ev.movement);
    }
  }

  lemma LedgerKept(types: A.Catalogue, w: World, ev: Event, w': World)
    requires Inv(types, w) && Enabled(types, w, ev) && !ev.ApplyDecision? && w' == Next(types, w, ev)
    ensures LedgerOk(w')
  {
    forall i | 0 <= i < |w'.stock.ledger| && w'.stock.ledger[i].movementType.Descarte?
      ensures i < |w.stock.ledger| && w'.stock.ledger[i] == w.stock.ledger[i] && Backed(w', w'.stock.ledger[i])
    {
      NoNewDiscardRow(types, w, ev, i);
      var id :| Backs(w, id, w.stock.ledger[i]);
      BackingKept(types, w, ev, id, w.stock.ledger[i]);
    }
  }

  /** The movement of an approved discard goes through exactly when the bucket of the caller's warehouse holds the quantity. */
  lemma DiscardFitsExactly(w: World, id: Id)
    requires LinksOk(w) && id in w.requests && w.requests[id].exception.Some? && id in w.callers
    ensures Applied(w.stock, DescarteMovement(w.requests[id], w.requests[id].exception.value, w.callers[id])).Success? <==>
            Qty(w.stock.balances, w.requests[id].LegAt(w.callers[id])) >= w.requests[id].qty
  {
    DescartePosting(w.requests[id], w.requests[id].exception.value, w.callers[id]);
  }

  /** Applying a decision writes nothing, or exactly the DESCARTE row of the approved request, which it resolves. */
  lemma ApplyWrites(types: A.Catalogue, w: World, id: Id, w': World)
    requires Inv(types, w) && Enabled(types, w, ApplyDecision(id)) && w' == Next(types, w, ApplyDecision(id))
    ensures w'.stock == w.stock ||
            (&& |w'.stock.ledger| == |w.stock.ledger| + 1 && w'.stock.ledger[|w.stock.ledger|].movementType.Descarte?
             && w'.stock.ledger[|w.stock.ledger|].requirement == w.requests[id].exception
             && w'.requests[id].resolution == Discarded(|w.stock.ledger|) && Backs(w', id, w'.stock.ledger[|w.stock.ledger|]))
  {
    DescartePosting(w.requests[id], w.requests[id].exception.value, w.callers[id]);
  }

  /** No row is backed by a request whose decision is still to be applied. */
  lemma NoRowYet(types: A.Catalogue, w: World, id: Id, i: nat)
    requires Inv(types, w) && id in w.requests && w.requests[id].resolution.Unresolved? && w.requests[id].exception.Some?
    requires i < |w.stock.ledger| && w.stock.ledger[i].movementType.Descarte?
    ensures w.stock.ledger[i].requirement != w.requests[id].exception
  {
    var other :| Backs(w, other, w.stock.ledger[i]);
    assert IsAbout(w.exceptions, w.requests[id].exception.value, id, w.requests[id]);
  }

  lemma OldRowStaysBacked(types: A.Catalogue, w: World, id: Id, w': World, i: nat)
    requires Inv(types, w) && Enabled(types, w, ApplyDecision(id)) && w' == Next(types, w, ApplyDecision(id))
    requires i < |w.stock.ledger| && w.stock.ledger[i].movementType.Descarte?
    ensures Backed(w', w.stock.ledger[i]) && w.stock.ledger[i].requirement != w.requests[id].exception
  {
    NoRowYet(types, w, id, i);
    var other :| Backs(w, other, w.stock.ledger[i]);
    BackingKept(types, w, ApplyDecision(id), other, w.stock.ledger[i]);
  }

  /** At most one more row, backed and naming an exception of its own. */
  lemma LedgerGrows(w: World, w': World, e: Option<Id>)
    requires LedgerOk(w) && w.stock.ledger <= w'.stock.ledger
    requires w'.stock.ledger == w.stock.ledger ||
             (|w'.stock.ledger| == |w.stock.ledger| + 1 && w'.stock.ledger[|w.stock.ledger|].requirement == e
              && Backed(w', w'.stock.ledger[|w.stock.ledger|]))
    requires forall i :: 0 <= i < |w.stock.ledger| && w.stock.ledger[i].movementType.Descarte? ==>
      Backed(w', w.stock.ledger[i]) && w.stock.ledger[i].requirement != e
    ensures LedgerOk(w')
  {
    forall i | 0 <= i < |w.stock.ledger| ensures w'.stock.ledger[i] == w.stock.ledger[i] {
    }
  }

  lemma ApplyKeepsLedger(types: A.Catalogue, w: World, id: Id, w': World)
    requires Inv(types, w) && Enabled(types, w, ApplyDecision(id)) && w' == Next(types, w, ApplyDecision(id))
    ensures LedgerOk(w')
  {
    ApplyWrites(types, w, id, w');
    LedgerOnlyGrows(types, w, ApplyDecision(id));
    forall i | 0 <= i < |w.stock.ledger| && w.stock.ledger[i].movementType.Descarte?
      ensures Backed(w', w.stock.ledger[i]) && w.stock.ledger[i].requirement != w.requests[id].exception
    {
      OldRowStaysBacked(types, w, id, w', i);
    }
    LedgerGrows(w, w', w.requests[id].exception);
  }

  /** An unresolved request is resolved by nothing but applying its decision, which says why. */
  lemma UnresolvedStaysConsistent(types: A.Catalogue, w: World, ev: Event, id: Id, w': World)
    requires Inv(types, w) && Enabled(types, w, ev) && w' == Next(types, w, ev)
    requires id in w'.requests && (id in w.requests ==> w.requests[id].resolution.Unresolved?)
    ensures ResolutionOk(w', id)
  {
    if ev == ApplyDecision(id) {
      ApplyWrites(types, w, id, w');
      DiscardFitsExactly(w, id);
    }
  }

  lemma ResolutionsKept(types: A.Catalogue, w: World, ev: Event, w': World)
    requires Inv(types, w) && Enabled(types, w, ev) && w' == Next(types, w, ev)
    ensures ResolutionsOk(w')
  {
    forall id | id in w'.requests ensures ResolutionOk(w', id) {
      if id in w.requests && !w.requests[id].resolution.Unresolved? {
        SettledKeepsMeaning(types, w, ev, id, w');
      } else {
        UnresolvedStaysConsistent(types, w, ev, id, w');
      }
    }
  }

  lemma SettledKeepsMeaning(types: A.Catalogue, w: World, ev: Event, id: Id, w': World)
    requires Inv(types, w) && Enabled(types, w, ev) && w' == Next(types, w, ev)
    requires id in w.requests && !w.requests[id].resolution.Unresolved?
    ensures id in w'.requests && ResolutionOk(w', id)
  {
    assert ResolutionOk(w, id);
    SettledIsUntouched(types, w, ev, id);
    LedgerOnlyGrows(types, w, ev);
    if w.requests[id].resolution.Discarded? {
      BackingKept(types, w, ev, id, w.stock.ledger[w.requests[id].resolution.movement]);
    } else {
      ExceptionsGrow(types, w, ev);
    }
  }

  lemma StepKeepsInv(types: A.Catalogue, w: World, ev: Event)
    requires Inv(types, w)
    requires forall t :: t in types ==> types[t].defaultSteps >= 1
    ensures Inv(types, Next(types, w, ev))
  {
    if Enabled(types, w, ev) {
      SoundnessKept(types, w, ev, Next(types, w, ev));
      LinksKept(types, w, ev, Next(types, w, ev));
      ResolutionsKept(types, w, ev, Next(types, w, ev));
      if ev.ApplyDecision? {
        ApplyKeepsLedger(types, w, ev.id, Next(types, w, ev));
      } else {
        LedgerKept(types, w, ev, Next(types, w, ev));
      }
    }
  }

  lemma {:induction false} InvOfRun(types: A.Catalogue, events: seq<Event>)
    requires forall t :: t in types ==> types[t].defaultSteps >= 1
    ensures Inv(types, Run(types, events))
  {
    if events != [] {
      var front, ev := events[..|events| - 1], events[|events| - 1];
      InvOfRun(types, front);
      StepKeepsInv(types, Run(types, front), ev);
    }
  }

  /**
   In every interleaving, each DESCARTE row of the ledger takes exactly what one request asked for,
   under a discard exception opened for that request and that quantity, approved in full by different
   qualified people other than the one who asked, and no exception ever backs two such rows. It takes
   from the request's own bucket if and only if the deciding call named the request's warehouse.
   */
  lemma EveryDiscardIsApprovedAndUnique(types: A.Catalogue, events: seq<Event>, i: nat)
    requires forall t :: t in types ==> types[t].defaultSteps >= 1
    requires i < |Run(types, events).stock.ledger| && Run(types, events).stock.ledger[i].movementType.Descarte?
    ensures var w := Run(types, events);
            var row := w.stock.ledger[i];
            && row.requirement.Some? && row.requirement.value in w.exceptions
            && var e := w.exceptions[row.requirement.value];
            && e.kind == DISCARD_KIND && e.qty == Some(row.qty) && Backs(w, e.entity, row)
            && e.requestedBy == w.requests[e.entity].requestedBy
            && (row.DebitLeg() == Some(w.requests[e.entity].OwnLeg()) <==> w.callers[e.entity] == w.requests[e.entity].warehouse)
            && e.status.Approved? && A.ProperChain(e) && A.AllApprove(e.decisions)
            && DISCARD_KIND in types && |e.decisions| == types[DISCARD_KIND].defaultSteps
            && (forall j :: 0 <= j < |w.stock.ledger| && w.stock.ledger[j].movementType.Descarte? && j != i ==>
                  w.stock.ledger[j].requirement != row.requirement)
  {
    InvOfRun(types, events);
    var w := Run(types, events);
    assert Backed(w, w.stock.ledger[i]);
    var id :| Backs(w, id, w.stock.ledger[i]);
    assert A.Sound(types, w.exceptions[w.stock.ledger[i].requirement.value]);
  }

  // ---- Exactly when a decided discard takes no effect ----------------------------------------

  /** The request still waits for a decision, or for its effect. */
  predicate Waits(w: World, id: Id) {
    id in w.requests && w.requests[id].exception.Some? && w.requests[id].resolution.Unresolved?
  }

  /** The exception is closed, and no call is left that would act on it. */
  predicate Lost(w: World, id: Id) {
    && Waits(w, id) && id !in w.awaiting && w.requests[id].exception.value in w.exceptions
    && !A.Open(w.exceptions[w.requests[id].exception.value].status)
  }

  /**
   The step loses the effect: the deciding call dies before it acts, the approved movement finds too
   little in the caller's warehouse, or the exception is closed by anything but a call that then acts.
   */
  predicate Loses(types: A.Catalogue, w: World, ev: Event, id: Id) {
    && Waits(w, id) && w.requests[id].exception.value in w.exceptions
    && var e := w.requests[id].exception.value;
    || (ev == AbandonDecision(id) && id in w.awaiting)
    || (ev == ApplyDecision(id) && id in w.awaiting && id in w.callers && w.exceptions[e].status.Approved?
        && Qty(w.stock.balances, w.requests[id].LegAt(w.callers[id])) < w.requests[id].qty)
    || (ev.WorkflowCall? && id !in w.awaiting && A.Open(w.exceptions[e].status)
        && e in A.Next(types, w.exceptions, ev.event) && !A.Open(A.Next(types, w.exceptions, ev.event)[e].status))
  }

  lemma UnawaitedIsUntouched(types: A.Catalogue, w: World, ev: Event, id: Id, w': World)
    requires Enabled(types, w, ev) && w' == Next(types, w, ev) && id in w.requests && id !in w.awaiting && w.requests[id].exception.Some?
    ensures id in w'.requests && w'.requests[id] == w.requests[id]
  {
  }

  lemma LostStaysLost(types: A.Catalogue, w: World, ev: Event, id: Id)
    requires Inv(types, w) && Lost(w, id)
    ensures Lost(Next(types, w, ev), id)
  {
    if Enabled(types, w, ev) {
      var w' := Next(types, w, ev);
      UnawaitedIsUntouched(types, w, ev, id, w');
      ExceptionsGrow(types, w, ev);
      if id in w'.awaiting {
        AwaitingWasOpen(types, w, ev, id);
      }
    }
  }

  lemma AttemptLosesExactly(types: A.Catalogue, w: World, id: Id, w': World)
    requires LinksOk(w) && Enabled(types, w, ApplyDecision(id)) && w' == Next(types, w, ApplyDecision(id)) && Waits(w, id)
    ensures Lost(w', id) <==> Loses(types, w, ApplyDecision(id), id)
  {
    DiscardFitsExactly(w, id);
  }

  lemma OtherDecisionsLoseNothing(types: A.Catalogue, w: World, ev: Event, id: Id, w': World)
    requires LinksOk(w) && Enabled(types, w, ev) && w' == Next(types, w, ev) && Waits(w, id) && !Lost(w, id)
    requires ev.DecideDiscard?
    ensures !Lost(w', id)
  {
    assert IsAbout(w.exceptions, w.requests[id].exception.value, id, w.requests[id]);
    assert IsAbout(w.exceptions, w.requests[ev.id].exception.value, ev.id, w.requests[ev.id]);
  }

  lemma OthersLoseExactly(types: A.Catalogue, w: World, ev: Event, id: Id, w': World)
    requires Enabled(types, w, ev) && w' == Next(types, w, ev) && Waits(w, id) && !Lost(w, id)
    requires w.requests[id].exception.value in w.exceptions && !ev.DecideDiscard? && ev != ApplyDecision(id)
    requires id in w.awaiting ==> !A.Open(w.exceptions[w.requests[id].exception.value].status)
    ensures Lost(w', id) <==> Loses(types, w, ev, id)
  {
  }

  /** A step that leaves the request waiting on an open exception, or awaited, loses nothing. */
  lemma LosesExactly(types: A.Catalogue, w: World, ev: Event, id: Id, w': World)
    requires Inv(types, w) && Enabled(types, w, ev) && w' == Next(types, w, ev) && Waits(w, id) && !Lost(w, id)
    ensures Lost(w', id) <==> Loses(types, w, ev, id)
  {
    assert IsAbout(w.exceptions, w.requests[id].exception.value, id, w.requests[id]);
    if ev == ApplyDecision(id) {
      AttemptLosesExactly(types, w, id, w');
    } else if ev.DecideDiscard? {
      OtherDecisionsLoseNothing(types, w, ev, id, w');
    } else {
      OthersLoseExactly(types, w, ev, id, w');
    }
  }

  /** What is lost after a step was lost before it, or the step lost it. */
  lemma LostExactly(types: A.Catalogue, w: World, ev: Event, id: Id)
    requires Inv(types, w)
    ensures Lost(Next(types, w, ev), id) <==> Lost(w, id) || (Enabled(types, w, ev) && Loses(types, w, ev, id))
  {
    if Lost(w, id) {
      LostStaysLost(types, w, ev, id);
    } else if Enabled(types, w, ev) {
      if Waits(w, id) {
        LosesExactly(types, w, ev, id, Next(types, w, ev));
      } else {
        NotWaitingIsNotLost(types, w, ev, id, Next(types, w, ev));
      }
    }
  }

  lemma NotWaitingIsNotLost(types: A.Catalogue, w: World, ev: Event, id: Id, w': World)
    requires Inv(types, w) && Enabled(types, w, ev) && w' == Next(types, w, ev) && !Waits(w, id)
    ensures !Lost(w', id)
  {
    if id in w.requests && !w.requests[id].resolution.Unresolved? {
      SettledIsUntouched(types, w, ev, id);
    }
  }

  predicate LosesAt(types: A.Catalogue, events: seq<Event>, n: nat, id: Id)
    requires n < |events|
  {
    Enabled(types, Run(types, events[..n]), events[n]) && Loses(types, Run(types, events[..n]), events[n], id)
  }

  ghost predicate LosesSomewhere(types: A.Catalogue, events: seq<Event>, id: Id) {
    exists n: nat :: n < |events| && LosesAt(types, events, n, id)
  }

  lemma LosesInFront(types: A.Catalogue, events: seq<Event>, m: nat, id: Id)
    requires |events| == m + 1
    ensures LosesSomewhere(types, events, id) <==> LosesSomewhere(types, events[..m], id) || LosesAt(types, events, m, id)
  {
    forall n: nat | n < m ensures LosesAt(types, events[..m], n, id) == LosesAt(types, events, n, id) {
      assert events[..m][..n] == events[..n];
    }
  }

  /** In every run, a decided discard is lost exactly when some step of the run lost it. */
  lemma {:induction false} DiscardLostExactly(types: A.Catalogue, events: seq<Event>, id: Id)
    requires forall t :: t in types ==> types[t].defaultSteps >= 1
    ensures Lost(Run(types, events), id) <==> LosesSomewhere(types, events, id)
  {
    if events != [] {
      var m := |events| - 1;
      DiscardLostExactly(types, events[..m], id);
      LosesInFront(types, events, m, id);
      InvOfRun(types, events[..m]);
      LostExactly(types, Run(types, events[..m]), events[m], id);
    }
  }

  /**
   An approved discard is in exactly one of three states: its call has still to act, it was carried
   out by the one ledger row its resolution names, or it is lost, and then no ledger row names it.
   */
  lemma ApprovedDiscardIsAwaitedDoneOrLost(types: A.Catalogue, events: seq<Event>, id: Id)
    requires forall t :: t in types ==> types[t].defaultSteps >= 1
    requires var w := Run(types, events);
             && id in w.requests && w.requests[id].exception.Some? && w.requests[id].exception.value in w.exceptions
             && w.exceptions[w.requests[id].exception.value].status.Approved?
    ensures var w := Run(types, events);
            var rows := set i | 0 <= i < |w.stock.ledger| && w.stock.ledger[i].movementType.Descarte?
                                && w.stock.ledger[i].requirement == w.requests[id].exception;
            || (id in w.awaiting && !Lost(w, id) && w.requests[id].resolution.Unresolved? && rows == {})
            || (id !in w.awaiting && Lost(w, id) && rows == {})
            || (id !in w.awaiting && !Lost(w, id) && w.requests[id].resolution.Discarded?
                && rows == {w.requests[id].resolution.movement})
  {
    InvOfRun(types, events);
    var w := Run(types, events);
    assert ResolutionOk(w, id);
    forall i | w.requests[id].resolution.Unresolved? && 0 <= i < |w.stock.ledger| && w.stock.ledger[i].movementType.Descarte?
      ensures w.stock.ledger[i].requirement != w.requests[id].exception
    {
      NoRowYet(types, w, id, i);
    }
  }

  // ---- A run whose outcome depends on the caller's warehouse ----------------------------------

  /** Five damaged units to discard, at location 7 of warehouse 1. */
  const WANTED := Request(1, 1, 1, None, Some(7), None, Damaged, 5, 100, None, Unresolved)

  const ONE_STEP: A.Catalogue := map[DISCARD_KIND := A.ExceptionType(1, true, 0)]

  /** Five damaged units that enter at that location, in some warehouse. */
  function Entry(stockAt: Id): Movement {
    StockLedger.Movement.Movement(
      1, stockAt, None, EntradaRecebimento, 1, None, 5, None, None, Some(7), None, None, Some(Damaged), None, None, None, false)
  }

  /** Stock enters, its discard is asked for and opened, and a manager approves it from warehouse `at`. */
  predicate DiscardRun(events: seq<Event>, stockAt: Id, at: Id) {
    && |events| == 5
    && events[0] == OtherMovement(Entry(stockAt))
    && events[1] == RequestDiscard(1, WANTED)
    && events[2] == OpenException(1, 9, A.CreateInput(DISCARD_KIND, 1, 1, Some(5), None, true, 100, 0), [])
    && events[3] == DecideDiscard(1, at, 101, A.Approve, A.Standing(true, []))
    && events[4] == ApplyDecision(1)
  }

  lemma RunGoesOn(events: seq<Event>, n: nat)
    requires n < |events|
    ensures Run(ONE_STEP, events[..n + 1]) == Next(ONE_STEP, Run(ONE_STEP, events[..n]), events[n])
  {
    assert events[..n + 1][..n] == events[..n];
  }

  lemma EntryArrives(stockAt: Id)
    ensures var s := Step(EMPTY_STOCK, Entry(stockAt));
            forall at: Id :: Qty(s.balances, WANTED.LegAt(at)) == if at == stockAt then 5 else 0
  {
    assert PostingOf(Entry(stockAt)).value.credit == Some(WANTED.LegAt(stockAt)) && PostingOf(Entry(stockAt)).value.debit.None?;
  }

  const LINKED := WANTED.(exception := Some(9))

  lemma DiscardIsOpened(events: seq<Event>, stockAt: Id, at: Id)
    requires DiscardRun(events, stockAt, at)
    ensures Run(ONE_STEP, events[..3]) == START.(
              stock := Step(EMPTY_STOCK, Entry(stockAt)), requests := map[1 := LINKED],
              exceptions := map[9 := A.Exception(DISCARD_KIND, 1, 1, Some(5), None, 100, 0, A.Escalated, 1, [])])
  {
    assert events[..0] == [];
    RunGoesOn(events, 0);
    RunGoesOn(events, 1);
    RunGoesOn(events, 2);
  }

  lemma DiscardIsApproved(events: seq<Event>, stockAt: Id, at: Id)
    requires DiscardRun(events, stockAt, at)
    ensures var w := Run(ONE_STEP, events[..4]);
            && w.stock == Step(EMPTY_STOCK, Entry(stockAt)) && w.requests == map[1 := LINKED] && w.awaiting == {1}
            && 1 in w.callers && w.callers[1] == at && 9 in w.exceptions && w.exceptions[9].status.Approved?
  {
    DiscardIsOpened(events, stockAt, at);
    RunGoesOn(events, 3);
  }

  /**
   In that run the discard is approved in full. It takes the stock of the warehouse the caller names,
   whatever the request's; when the stock is in another warehouse, be it the request's, it is lost.
   */
  lemma DiscardFollowsTheCaller(events: seq<Event>, stockAt: Id, at: Id)
    requires DiscardRun(events, stockAt, at)
    ensures var w := Run(ONE_STEP, events);
            && 9 in w.exceptions && w.exceptions[9].status.Approved? && 1 in w.requests && w.requests[1].warehouse == 1
            && if at == stockAt then w.requests[1].resolution.Discarded? && Qty(w.stock.balances, WANTED.LegAt(at)) == 0
               else Lost(w, 1) && Qty(w.stock.balances, WANTED.LegAt(stockAt)) == 5
  {
    DiscardIsApproved(events, stockAt, at);
    RunGoesOn(events, 4);
    EntryArrives(stockAt);
    DescartePosting(LINKED, 9, at);
    assert LINKED.LegAt(at) == WANTED.LegAt(at);
    assert events[..5] == events;
  }
}
