/** Turning a selection into reservations: authorisation first, then movements under row locks. */
module Reservation {
  import opened Common
  import opened Text
  import opened PolicyOrder
  import opened Allocation
  import opened Selection
  import opened StockEffects
  import opened StockLedger

  datatype ReserveInput = ReserveInput(
    request: Request, demandRef: Id, allowPartial: bool,
    exceptionId: Option<Id>, breakReason: Option<string>)
  {
    predicate IsPolicyBreak() {
      request.forcedBatch.Some? || request.overrideShelfLife
    }
  }

  datatype ExceptionRecord = ExceptionRecord(isQuebraFefo: bool, warehouse: Id, approved: bool, attachments: nat)

  datatype ReserveError =
    | PermissionRequired
    | BreakReasonRequired
    | ExceptionRequired
    | ExceptionNotFound
    | WrongExceptionType
    | ExceptionWarehouseMismatch
    | NotApproved
    | SelectionFailed(error: SelectionError)
    | InsufficientAvailable
    | AttachmentRequired

  datatype Reserved = Reserved(
    balanceId: Id, key: Key, qty: int, active: bool, demandRef: Id,
    policyBreak: bool, exceptionId: Option<Id>, movementId: nat)

  datatype ReserveResult = ReserveResult(reservations: seq<Reserved>, selection: Outcome, qtyReserved: int)

  /** Everything a policy break needs before anything happens. */
  function Authorization(input: ReserveInput, hasPermission: bool, exceptions: map<Id, ExceptionRecord>): Option<ReserveError> {
    if !hasPermission then Some(PermissionRequired)
    else if input.breakReason.None? || |Trim(input.breakReason.value)| == 0 then Some(BreakReasonRequired)
    else if input.exceptionId.None? then Some(ExceptionRequired)
    else if input.exceptionId.value !in exceptions then Some(ExceptionNotFound)
    else
      var e := exceptions[input.exceptionId.value];
      if !e.isQuebraFefo then Some(WrongExceptionType)
      else if e.warehouse != input.request.warehouse then Some(ExceptionWarehouseMismatch)
      else if !e.approved then Some(NotApproved)
      else None
  }

  /** A reason with a character in it that is not white space. */
  ghost predicate GivesReason(input: ReserveInput) {
    && input.breakReason.Some?
    && !forall i :: 0 <= i < |input.breakReason.value| ==>
         var code := input.breakReason.value[i] as int;
         || 9 <= code <= 13 || code == 32 || code == 160 || code == 5760 || 8192 <= code <= 8202
         || code in [8232, 8233, 8239, 8287, 12288, 65279]
  }

  /** A break of the policy is in order: permitted, reasoned, and approved on record for this warehouse. */
  ghost predicate MayBreak(input: ReserveInput, hasPermission: bool, exceptions: map<Id, ExceptionRecord>) {
    && hasPermission && GivesReason(input)
    && input.exceptionId.Some? && input.exceptionId.value in exceptions
    && var e := exceptions[input.exceptionId.value];
    && e.isQuebraFefo && e.warehouse == input.request.warehouse && e.approved
  }

  /** The first thing a break of the policy lacks, in the order in which the checks are made. */
  ghost predicate FirstMissing(input: ReserveInput, hasPermission: bool, exceptions: map<Id, ExceptionRecord>, error: ReserveError) {
    if error.PermissionRequired? then !hasPermission
    else if error.BreakReasonRequired? then hasPermission && !GivesReason(input)
    else if error.ExceptionRequired? then hasPermission && GivesReason(input) && input.exceptionId.None?
    else if error.ExceptionNotFound? then
      hasPermission && GivesReason(input) && input.exceptionId.Some? && input.exceptionId.value !in exceptions
    else
      && hasPermission && GivesReason(input) && input.exceptionId.Some? && input.exceptionId.value in exceptions
      && var e := exceptions[input.exceptionId.value];
      && if error.WrongExceptionType? then !e.isQuebraFefo
         else if error.ExceptionWarehouseMismatch? then e.isQuebraFefo && e.warehouse != input.request.warehouse
         else error.NotApproved? && e.isQuebraFefo && e.warehouse == input.request.warehouse && !e.approved
  }

  /** A break is authorised exactly when it is in order, and refused with the first thing it lacks. */
  lemma AuthorizationExactly(input: ReserveInput, hasPermission: bool, exceptions: map<Id, ExceptionRecord>)
    ensures Authorization(input, hasPermission, exceptions).None? <==> MayBreak(input, hasPermission, exceptions)
    ensures forall error :: FirstMissing(input, hasPermission, exceptions, error) <==>
              Authorization(input, hasPermission, exceptions) == Some(error)
  {
    if input.breakReason.Some? {
      TrimLeavesNothingExactly(input.breakReason.value);
    }
  }

  predicate HasAttachment(input: ReserveInput, exceptions: map<Id, ExceptionRecord>) {
    input.exceptionId.Some? && input.exceptionId.value in exceptions && exceptions[input.exceptionId.value].attachments > 0
  }

  function KeyOf(request: Request, c: Candidate): Key {
    Key(request.tenant, request.warehouse, c.product, c.batch, Some(c.location), c.pallet)
  }

  function ReservaMovement(input: ReserveInput, a: Allocated): Movement {
    var c := a.candidate;
    Movement(input.request.tenant, input.request.warehouse, None, Reserva, c.product, c.batch, a.qty,
             Some(c.location), c.pallet, Some(c.location), c.pallet, None, None,
             Some(input.demandRef), None, None, input.IsPolicyBreak())
  }

  /** How much a list of allocations takes from one balance row. */
  function TakenFrom(request: Request, allocations: seq<Allocated>, k: Key): int {
    if allocations == [] then 0
    else
      var last := allocations[|allocations| - 1];
      TakenFrom(request, allocations[..|allocations| - 1], k) + (if KeyOf(request, last.candidate) == k then last.qty else 0)
  }

  /** The locked table shows each balance row once, with the quantity it really has. */
  ghost predicate Reflects(table: seq<StockRow>, balances: Balances) {
    && OneRowEach(table)
    && forall r :: r in table ==> r.candidate.qtyAvailable == Qty(balances, Leg(r.Key(), Available))
  }

  /** Exactly the allocated amounts moved from available to reserved, row by row. */
  ghost predicate MovedToReserved(request: Request, before: Balances, after: Balances, allocations: seq<Allocated>) {
    forall l: Leg :: Qty(after, l) ==
      match l.bucket
      case Available => Qty(before, l) - TakenFrom(request, allocations, l.key)
      case Reserved => Qty(before, l) + TakenFrom(request, allocations, l.key)
      case _ => Qty(before, l)
  }

  /** One reservation records one allocation and points at the RESERVA row that carried it. */
  ghost predicate RecordsOne(input: ReserveInput, a: Allocated, r: Reserved, ledger: seq<Row>) {
    && r.balanceId == a.candidate.balanceId && r.qty == a.qty && r.key == KeyOf(input.request, a.candidate)
    && r.key == Key(input.request.tenant, input.request.warehouse, a.candidate.product, a.candidate.batch,
                    Some(a.candidate.location), a.candidate.pallet)
    && r.active && r.demandRef == input.demandRef && r.policyBreak == input.IsPolicyBreak()
    && r.exceptionId == (if input.IsPolicyBreak() then input.exceptionId else None)
    && r.movementId < |ledger|
    && var row := ledger[r.movementId];
    && row.movementType.Reserva? && row.qty == a.qty
    && row.documentRef == Some(input.demandRef) && row.policyBreak == input.IsPolicyBreak()
    && row.DebitLeg() == Some(Leg(r.key, Available)) && row.CreditLeg() == Some(Leg(r.key, StockEffects.Reserved))
  }

  ghost predicate Recorded(input: ReserveInput, allocations: seq<Allocated>, reservations: seq<Reserved>, ledger: seq<Row>) {
    && |reservations| == |allocations|
    && forall i :: 0 <= i < |allocations| ==> RecordsOne(input, allocations[i], reservations[i], ledger)
  }

  lemma ReservaPosting(input: ReserveInput, a: Allocated)
    requires a.qty > 0
    ensures var k := KeyOf(input.request, a.candidate);
            var p := PostingOf(ReservaMovement(input, a));
            && p.Success?
            && p.value.debit == Some(Leg(k, Available)) && p.value.credit == Some(Leg(k, StockEffects.Reserved))
            && |p.value.rows| == 1 && p.value.rows[0].qty == a.qty && p.value.rows[0].movementType == Reserva
            && p.value.rows[0].documentRef == Some(input.demandRef) && p.value.rows[0].policyBreak == input.IsPolicyBreak()
            && p.value.rows[0].DebitLeg() == p.value.debit && p.value.rows[0].CreditLeg() == p.value.credit
  {
  }

  ghost predicate DistinctKeys(request: Request, allocations: seq<Allocated>) {
    forall i, j :: 0 <= i < j < |allocations| ==>
      KeyOf(request, allocations[i].candidate) != KeyOf(request, allocations[j].candidate)
  }

  lemma {:induction false} NothingTakenFromOthers(request: Request, allocations: seq<Allocated>, k: Key)
    requires forall a :: a in allocations ==> KeyOf(request, a.candidate) != k
    ensures TakenFrom(request, allocations, k) == 0
  {
    if allocations != [] {
      NothingTakenFromOthers(request, allocations[..|allocations| - 1], k);
    }
  }

  lemma TakenFromSnoc(request: Request, allocations: seq<Allocated>, a: Allocated)
    ensures forall k: Key :: TakenFrom(request, allocations + [a], k) ==
              TakenFrom(request, allocations, k) + (if KeyOf(request, a.candidate) == k then a.qty else 0)
  {
    assert (allocations + [a])[..|allocations|] == allocations;
  }

  /** One reservation movement, on a row nothing was taken from yet, is accepted and moves exactly its amount. */
  lemma ReserveOne(input: ReserveInput, before: Balances, s: Stock, done: seq<Allocated>, a: Allocated)
    requires 0 < a.qty <= Qty(before, Leg(KeyOf(input.request, a.candidate), Available))
    requires forall d :: d in done ==> KeyOf(input.request, d.candidate) != KeyOf(input.request, a.candidate)
    requires MovedToReserved(input.request, before, s.balances, done)
    ensures var r := Applied(s, ReservaMovement(input, a));
            && r.Success?
            && MovedToReserved(input.request, before, r.value.balances, done + [a])
            && |r.value.ledger| == |s.ledger| + 1 && s.ledger <= r.value.ledger
            && var row := r.value.ledger[|s.ledger|];
            && row.movementType.Reserva? && row.qty == a.qty
            && row.documentRef == Some(input.demandRef) && row.policyBreak == input.IsPolicyBreak()
            && row.DebitLeg() == Some(Leg(KeyOf(input.request, a.candidate), Available))
            && row.CreditLeg() == Some(Leg(KeyOf(input.request, a.candidate), StockEffects.Reserved))
  {
    ReservaPosting(input, a);
    var k := KeyOf(input.request, a.candidate);
    NothingTakenFromOthers(input.request, done, k);
    TakenFromSnoc(input.request, done, a);
    assert Qty(s.balances, Leg(k, Available)) == Qty(before, Leg(k, Available));
  }

  lemma AllocationsHitDistinctRows(
    table: seq<StockRow>, settings: Settings, containment: Containment, request: Request, allocations: seq<Allocated>, balances: Balances)
    requires Typed(table, Some(settings), request.today) && Reflects(table, balances)
    requires forall a :: a in allocations ==>
      a.candidate in Scope(table, settings, containment, request) && 0 < a.qty <= a.candidate.qtyAvailable
    requires forall i, j :: 0 <= i < j < |allocations| ==>
      allocations[i].candidate.balanceId != allocations[j].candidate.balanceId
    ensures DistinctKeys(request, allocations)
    ensures forall a :: a in allocations ==> 0 < a.qty <= Qty(balances, Leg(KeyOf(request, a.candidate), Available))
  {
    ScopeMembers(table, settings, containment, request);
    forall i, j | 0 <= i < j < |allocations|
      ensures KeyOf(request, allocations[i].candidate) != KeyOf(request, allocations[j].candidate)
    {
      assert allocations[i] in allocations && allocations[j] in allocations;
      var q :| MayConsume(table, settings, containment, request, q) && q.candidate == allocations[i].candidate;
      var r :| MayConsume(table, settings, containment, request, r) && r.candidate == allocations[j].candidate;
    }
    forall a | a in allocations ensures 0 < a.qty <= Qty(balances, Leg(KeyOf(request, a.candidate), Available)) {
      var q :| MayConsume(table, settings, containment, request, q) && q.candidate == a.candidate;
    }
  }

  /** Why there is no selection: nothing demanded, no such product, or no policy that the product or else the client names. */
  ghost predicate CannotSelect(request: Request, settings: Option<Settings>, error: SelectionError) {
    match error
    case InvalidDemand => request.demand <= 0
    case ProductNotFound => request.demand > 0 && settings.None?
    case PolicyUnresolved => request.demand > 0 && settings.Some? && forall policy :: !Names(settings.value, policy)
  }

  /** When a reservation goes through: exactly these conditions, whatever the outcome of the selection. */
  ghost predicate Granted(
    input: ReserveInput, hasPermission: bool, exceptions: map<Id, ExceptionRecord>, settings: Option<Settings>, o: Outcome)
  {
    && (input.request.forcedBatch.Some? || input.request.overrideShelfLife ==> MayBreak(input, hasPermission, exceptions))
    && input.request.demand > 0 && settings.Some? && Names(settings.value, o.policy)
    && (o.shortfall == 0 || input.allowPartial)
    && (o.shelfLifeOverridden ==>
          && input.exceptionId.Some? && input.exceptionId.value in exceptions
          && exceptions[input.exceptionId.value].attachments > 0)
  }

  lemma LockedSelection(
    table: seq<StockRow>, settings: Settings, containment: Containment, request: Request, o: Outcome, balances: Balances)
    requires Typed(table, Some(settings), request.today) && Reflects(table, balances) && request.demand > 0
    requires GreedyOutcome(OrderByPolicy(o.policy, Scope(table, settings, containment, request)), request.demand, o)
    ensures PolicyOptimal(o.policy, Scope(table, settings, containment, request), request.demand, o.allocations, o.shortfall)
    ensures DistinctKeys(request, o.allocations)
    ensures forall a :: a in o.allocations ==> 0 < a.qty <= Qty(balances, Leg(KeyOf(request, a.candidate), Available))
  {
    SelectionIsPolicyOptimal(table, settings, containment, request, o.policy, o);
    AllocationsHitDistinctRows(table, settings, containment, request, o.allocations, balances);
  }

  lemma QuantitiesSnoc(done: seq<Allocated>, a: Allocated)
    ensures Sum(Quantities(done + [a])) == Sum(Quantities(done)) + a.qty
  {
    assert Quantities(done + [a]) == Quantities(done) + [a.qty];
    SumSnoc(Quantities(done), a.qty);
  }

  lemma RecordedSnoc(
    input: ReserveInput, done: seq<Allocated>, created: seq<Reserved>, ledger: seq<Row>, a: Allocated, r: Reserved, ledger': seq<Row>)
    requires Recorded(input, done, created, ledger) && ledger <= ledger'
    requires RecordsOne(input, a, r, ledger')
    ensures Recorded(input, done + [a], created + [r], ledger')
  {
    forall i | 0 <= i < |done| + 1 ensures RecordsOne(input, (done + [a])[i], (created + [r])[i], ledger') {
      if i < |done| {
        assert RecordsOne(input, done[i], created[i], ledger);
      }
    }
  }

  lemma EarlierKeysDiffer(request: Request, allocations: seq<Allocated>, i: nat)
    requires i < |allocations| && DistinctKeys(request, allocations)
    ensures forall d :: d in allocations[..i] ==> KeyOf(request, d.candidate) != KeyOf(request, allocations[i].candidate)
  {
  }

  /** A selection over locked rows: optimal, on distinct rows, within what each of them really has. */
  method SelectLocked(
    table: seq<StockRow>, settings: Option<Settings>, containment: Containment, request: Request, ghost balances: Balances)
    returns (r: Result<Outcome, SelectionError>)
    requires Typed(table, settings, request.today) && Reflects(table, balances)
    ensures r.Failure? ==> CannotSelect(request, settings, r.error)
    ensures r.Success? ==> request.demand > 0 && settings.Some? && Names(settings.value, r.value.policy)
    ensures r.Success? ==>
      && PolicyOptimal(r.value.policy, Scope(table, settings.value, containment, request),
                       request.demand, r.value.allocations, r.value.shortfall)
      && Flagged(table, settings.value, containment, request, r.value)
    ensures r.Success? ==>
      && DistinctKeys(request, r.value.allocations)
      && forall a :: a in r.value.allocations ==> 0 < a.qty <= Qty(balances, Leg(KeyOf(request, a.candidate), Available))
  {
    r := SelectInTransaction(table, settings, containment, request);
    if r.Success? {
      LockedSelection(table, settings.value, containment, request, r.value, balances);
    }
  }

  class ReservationService {
    const stock: StockDatabase
    var reservations: seq<Reserved>

    constructor (stock: StockDatabase)
      ensures this.stock == stock && reservations == []
    {
      this.stock := stock;
      reservations := [];
    }

    method Reserve(
      input: ReserveInput, hasPermission: bool, exceptions: map<Id, ExceptionRecord>,
      table: seq<StockRow>, settings: Option<Settings>, containment: Containment)
      returns (r: Result<ReserveResult, ReserveError>)
      requires Typed(table, settings, input.request.today) && Reflects(table, stock.balances)
      modifies this, stock
      // Refused: nothing changed, and the reason is one of the conditions below.
      ensures r.Failure? ==> stock.State() == old(stock.State()) && reservations == old(reservations)
      // A break goes through only when it is in order, and is refused with the first thing it lacks.
      ensures (input.request.forcedBatch.Some? || input.request.overrideShelfLife) ==>
        && (r.Success? ==> MayBreak(input, hasPermission, exceptions))
        && (!MayBreak(input, hasPermission, exceptions) ==>
              r.Failure? && FirstMissing(input, hasPermission, exceptions, r.error))
      ensures r.Success? ==>
        Granted(input, hasPermission, exceptions, settings, r.value.selection)
      ensures r.Failure? && (input.request.forcedBatch.Some? || input.request.overrideShelfLife ==>
                               MayBreak(input, hasPermission, exceptions)) ==>
        match r.error
        case SelectionFailed(error) => CannotSelect(input.request, settings, error)
        case InsufficientAvailable =>
          && !input.allowPartial && settings.Some?
          && Sum(Availables(Scope(table, settings.value, containment, input.request))) < input.request.demand
        case AttachmentRequired =>
          && input.request.overrideShelfLife && settings.Some?
          && (input.exceptionId.Some? && input.exceptionId.value in exceptions ==>
                exceptions[input.exceptionId.value].attachments == 0)
          && ExcludedFrom(table, settings.value, containment, input.request) != []
        case _ => false
      // Granted: a policy-optimal selection, recorded and moved amount for amount.
      ensures r.Success? ==>
        && PolicyOptimal(r.value.selection.policy, Scope(table, settings.value, containment, input.request),
                         input.request.demand, r.value.selection.allocations, r.value.selection.shortfall)
        && Flagged(table, settings.value, containment, input.request, r.value.selection)
        && DistinctKeys(input.request, r.value.selection.allocations)
        && r.value.qtyReserved == Sum(Quantities(r.value.selection.allocations))
        && r.value.qtyReserved == input.request.demand - r.value.selection.shortfall
      ensures r.Success? ==>
        && MovedToReserved(input.request, old(stock.balances), stock.balances, r.value.selection.allocations)
        && Recorded(input, r.value.selection.allocations, r.value.reservations, stock.ledger)
        && reservations == old(reservations) + r.value.reservations
        && |stock.ledger| == |old(stock.ledger)| + |r.value.reservations|
        && old(stock.ledger) <= stock.ledger
    {
      AuthorizationExactly(input, hasPermission, exceptions);
      if input.IsPolicyBreak() {
        var refusal := Authorization(input, hasPermission, exceptions);
        if refusal.Some? {
          return Failure(refusal.value);
        }
      }
      var selected := SelectLocked(table, settings, containment, input.request, stock.balances);
      if selected.Failure? {
        return Failure(SelectionFailed(selected.error));
      }
      var selection := selected.value;
      if selection.shortfall > 0 && !input.allowPartial {
        return Failure(InsufficientAvailable);
      }
      if selection.shelfLifeOverridden && !HasAttachment(input, exceptions) {
        return Failure(AttachmentRequired);
      }
      var created, qtyReserved := ApplyAllocations(input, selection.allocations);
      return Success(ReserveResult(created, selection, qtyReserved));
    }

    /** One RESERVA movement and one active reservation. The movement is never refused. */
    method ReserveAllocation(input: ReserveInput, a: Allocated, ghost before: Balances, ghost done: seq<Allocated>)
      returns (reservation: Reserved)
      requires 0 < a.qty <= Qty(before, Leg(KeyOf(input.request, a.candidate), Available))
      requires forall d :: d in done ==> KeyOf(input.request, d.candidate) != KeyOf(input.request, a.candidate)
      requires MovedToReserved(input.request, before, stock.balances, done)
      modifies this, stock
      ensures MovedToReserved(input.request, before, stock.balances, done + [a])
      ensures reservations == old(reservations) + [reservation]
      ensures RecordsOne(input, a, reservation, stock.ledger)
      ensures |stock.ledger| == |old(stock.ledger)| + 1 && old(stock.ledger) <= stock.ledger
    {
      ReserveOne(input, before, stock.State(), done, a);
      var movement := stock.Apply(ReservaMovement(input, a));
      assert movement.Success?;
      reservation := Reserved.Reserved(
        a.candidate.balanceId, KeyOf(input.request, a.candidate), a.qty, true, input.demandRef,
        input.IsPolicyBreak(), if input.IsPolicyBreak() then input.exceptionId else None, movement.value.movementIds[0]);
      reservations := reservations + [reservation];
    }

    /** The effect of a granted reservation, allocation by allocation. */
    method ApplyAllocations(input: ReserveInput, allocations: seq<Allocated>)
      returns (created: seq<Reserved>, qtyReserved: int)
      requires DistinctKeys(input.request, allocations)
      requires forall a :: a in allocations ==> 0 < a.qty <= Qty(stock.balances, Leg(KeyOf(input.request, a.candidate), Available))
      modifies this, stock
      ensures MovedToReserved(input.request, old(stock.balances), stock.balances, allocations)
      ensures Recorded(input, allocations, created, stock.ledger)
      ensures reservations == old(reservations) + created
      ensures qtyReserved == Sum(Quantities(allocations))
      ensures |stock.ledger| == |old(stock.ledger)| + |allocations| && old(stock.ledger) <= stock.ledger
    {
      created, qtyReserved := [], 0;
      ghost var before := stock.balances;
      for i := 0 to |allocations|
        invariant MovedToReserved(input.request, before, stock.balances, allocations[..i])
        invariant Recorded(input, allocations[..i], created, stock.ledger)
        invariant reservations == old(reservations) + created
        invariant qtyReserved == Sum(Quantities(allocations[..i]))
        invariant |stock.ledger| == |old(stock.ledger)| + i && old(stock.ledger) <= stock.ledger
      {
        var allocation := allocations[i];
        assert allocations[..i + 1] == allocations[..i] + [allocation];
        ghost var ledger := stock.ledger;
        EarlierKeysDiffer(input.request, allocations, i);
        var reservation := ReserveAllocation(input, allocation, before, allocations[..i]);
        RecordedSnoc(input, allocations[..i], created, ledger, allocation, reservation, stock.ledger);
        created := created + [reservation];
        qtyReserved := qtyReserved + allocation.qty;
        QuantitiesSnoc(allocations[..i], allocation);
      }
      assert allocations[..|allocations|] == allocations;
    }
  }
}
