/**
 The closed catalogue of movement types, seen from outside: what each type does to every bucket, when
 it is refused, and which rows it leaves, for every stock and every movement.
 */
module MovementTable {
  import opened Common
  import opened StockEffects
  import opened StockLedger

  /** Refused for a reason that comes before any look at the stock; only the quantity is checked earlier. */
  predicate Refused(s: Stock, m: Movement, reason: MovementError) {
    Applied(s, m) == Failure(if m.qty <= 0 then InvalidQty else reason)
  }

  /**
   The quantity leaves the one bucket and arrives in the other, each of which may be missing, and no other
   bucket changes. The only refusals are a quantity that is not positive and an origin that holds less.
   */
  ghost predicate Exchanges(s: Stock, m: Movement, from: Option<Leg>, to: Option<Leg>) {
    var r := Applied(s, m);
    && (r.Success? <==> 0 < m.qty && (from.Some? ==> m.qty <= Qty(s.balances, from.value)))
    && (r.Failure? ==> r.error == if m.qty <= 0 then InvalidQty else InsufficientBalance)
    && (r.Success? ==>
          forall l: Leg :: Qty(r.value.balances, l) ==
            Qty(s.balances, l) - (if from == Some(l) then m.qty else 0) + (if to == Some(l) then m.qty else 0))
  }

  /** The key that a movement names as its origin. */
  function Here(m: Movement): Key {
    Key(m.tenant, m.warehouse, m.product, m.batch, m.locationFrom, m.palletFrom)
  }

  /** The key that a movement names as its destination, in a given warehouse. */
  function There(m: Movement, warehouse: Id): Key {
    Key(m.tenant, warehouse, m.product, m.batch, m.locationTo, m.palletTo)
  }

  /** The destination of content that stays where it is on every side that is not named. */
  function ThereOrHere(m: Movement): Key {
    Key(m.tenant, m.warehouse, m.product, m.batch,
        if m.locationTo.Some? then m.locationTo else m.locationFrom,
        if m.palletTo.Some? then m.palletTo else m.palletFrom)
  }

  /** A change of state in place: a fixed bucket to a fixed bucket. */
  ghost predicate Turns(s: Stock, m: Movement, from: Bucket, to: Bucket) {
    Exchanges(s, m, Some(Leg(Here(m), from)), Some(Leg(ThereOrHere(m), to)))
  }

  ghost predicate Gives(s: Stock, m: Movement, from: Bucket) {
    Exchanges(s, m, Some(Leg(Here(m), from)), None)
  }

  ghost predicate Receives(s: Stock, m: Movement, to: Bucket) {
    Exchanges(s, m, None, Some(Leg(ThereOrHere(m), to)))
  }

  /** The same bucket elsewhere. Without any origin it is the first entry of its content: nothing is debited. */
  ghost predicate Relocates(s: Stock, m: Movement, bucket: Bucket) {
    Exchanges(s, m,
              if m.locationFrom.Some? || m.palletFrom.Some? then Some(Leg(Here(m), bucket)) else None,
              Some(Leg(There(m, m.warehouse), bucket)))
  }

  /** Goods in transit at the origin arrive in another warehouse. */
  ghost predicate Arrives(s: Stock, m: Movement, destination: Id, to: Bucket) {
    Exchanges(s, m, Some(Leg(Here(m), InTransit)), Some(Leg(There(m, destination), to)))
  }

  lemma PostedExchanges(s: Stock, m: Movement, from: Option<Leg>, to: Option<Leg>)
    requires 0 < m.qty ==> PostingOf(m).Success? && PostingOf(m).value.debit == from && PostingOf(m).value.credit == to
    ensures Exchanges(s, m, from, to)
  {
  }

  lemma InPlacePosting(s: Stock, m: Movement, e: Effect)
    requires !IsLocationMove(m.movementType) && !m.movementType.TransferenciaEntradaArmazem?
    requires ResolveEffect(m.movementType, m.bucketFromOverride, m.bucketToOverride) == Success(e)
    ensures Exchanges(s, m,
                      if e.bucketFrom.None? then None else Some(Leg(Here(m), e.bucketFrom.value)),
                      if e.bucketTo.None? then None else Some(Leg(ThereOrHere(m), e.bucketTo.value)))
  {
    PostedExchanges(s, m,
                    if e.bucketFrom.None? then None else Some(Leg(Here(m), e.bucketFrom.value)),
                    if e.bucketTo.None? then None else Some(Leg(ThereOrHere(m), e.bucketTo.value)));
  }

  lemma RelocationPosting(s: Stock, m: Movement, bucket: Bucket)
    requires m.movementType.Putaway? || m.movementType.TransferenciaInterna? || m.movementType.Reposicao?
    requires ResolveEffect(m.movementType, m.bucketFromOverride, m.bucketToOverride) == Success(Effect(Some(bucket), Some(bucket)))
    ensures Relocates(s, m, bucket)
  {
    PostedExchanges(s, m,
                    if m.locationFrom.Some? || m.palletFrom.Some? then Some(Leg(Here(m), bucket)) else None,
                    Some(Leg(There(m, m.warehouse), bucket)));
  }

  lemma ArrivalPosting(s: Stock, m: Movement, destination: Id, to: Bucket)
    requires m.movementType.TransferenciaEntradaArmazem? && m.destination == Some(destination) && m.bucketToOverride == Some(to)
    ensures Arrives(s, m, destination, to)
  {
    PostedExchanges(s, m, Some(Leg(Here(m), InTransit)), Some(Leg(There(m, destination), to)));
  }

  /** The whole catalogue, type by type. */
  lemma EachTypeMovesItsBuckets(s: Stock, m: Movement)
    ensures (
      match m.movementType
      case Reserva => Turns(s, m, Available, Reserved)
      case LiberacaoReserva => Turns(s, m, Reserved, Available)
      case TransferenciaSaidaArmazem => Turns(s, m, Available, InTransit)
      case Bloqueio => Turns(s, m, Available, Blocked)
      case Desbloqueio => Turns(s, m, Blocked, Available)
      case LiberacaoQuarentena => Turns(s, m, Quarantine, Available)
      case Picking => Gives(s, m, Reserved)
      case SaidaExpedicao => Gives(s, m, if m.bucketFromOverride.Some? then m.bucketFromOverride.value else Reserved)
      case AjusteInventarioNeg => Gives(s, m, if m.bucketFromOverride.Some? then m.bucketFromOverride.value else Available)
      case AjusteInventarioPos => Receives(s, m, if m.bucketToOverride.Some? then m.bucketToOverride.value else Available)
      case EntradaRecebimento | EntradaReversa =>
        if m.bucketToOverride.None? then Refused(s, m, MissingBucketOverride) else Receives(s, m, m.bucketToOverride.value)
      case Descarte =>
        if m.bucketFromOverride.None? then Refused(s, m, MissingBucketOverride) else Gives(s, m, m.bucketFromOverride.value)
      case ReclassificacaoAvaria =>
        if m.bucketFromOverride.None? then Refused(s, m, MissingBucketOverride)
        else Turns(s, m, m.bucketFromOverride.value, Damaged)
      case Putaway | TransferenciaInterna | Reposicao =>
        if m.bucketFromOverride.Some? then Relocates(s, m, m.bucketFromOverride.value)
        else if m.bucketToOverride.Some? then Relocates(s, m, m.bucketToOverride.value)
        else Refused(s, m, MissingBucketOverride)
      case TransferenciaEntradaArmazem =>
        if m.bucketToOverride.None? then Refused(s, m, MissingBucketOverride)
        else if m.destination.None? then Refused(s, m, MissingDestinationWarehouse)
        else Arrives(s, m, m.destination.value, m.bucketToOverride.value))
  {
    var effect := ResolveEffect(m.movementType, m.bucketFromOverride, m.bucketToOverride);
    if effect.Success? {
      match m.movementType
      case Putaway | TransferenciaInterna | Reposicao => RelocationPosting(s, m, effect.value.bucketTo.value);
      case TransferenciaEntradaArmazem =>
        if m.destination.Some? {
          ArrivalPosting(s, m, m.destination.value, m.bucketToOverride.value);
        }
      case _ => InPlacePosting(s, m, effect.value);
    }
  }

  /** What a row copies from its movement, whatever the type. */
  predicate Documents(r: Row, m: Movement, warehouse: Id) {
    && r.tenant == m.tenant && r.warehouse == warehouse && r.product == m.product && r.batch == m.batch
    && r.movementType == m.movementType && r.qty == m.qty
    && r.documentRef == m.documentRef && r.task == m.task && r.requirement == m.requirement
    && r.policyBreak == m.policyBreak
  }

  predicate HasFrom(r: Row, location: Option<Id>, pallet: Option<Id>, bucket: Option<Bucket>) {
    r.locationFrom == location && r.palletFrom == pallet && r.bucketFrom == bucket
  }

  predicate HasTo(r: Row, location: Option<Id>, pallet: Option<Id>, bucket: Option<Bucket>) {
    r.locationTo == location && r.palletTo == pallet && r.bucketTo == bucket
  }

  /**
   A transfer leaves two rows, one in each warehouse, each with its own side only. Any other movement leaves one:
   its "from" side is empty exactly when nothing was debited, its "to" side exactly when nothing was credited,
   and a "to" side that is not named repeats the origin's.
   */
  lemma EachTypeLeavesItsRows(s: Stock, m: Movement)
    requires Applied(s, m).Success?
    ensures var rows := Applied(s, m).value.ledger;
            && s.ledger <= rows
            && if m.movementType.TransferenciaEntradaArmazem? then
              && |rows| == |s.ledger| + 2 && m.destination.Some?
              && var out, back := rows[|s.ledger|], rows[|s.ledger| + 1];
              && Documents(out, m, m.warehouse) && Documents(back, m, m.destination.value)
              && HasFrom(out, m.locationFrom, m.palletFrom, Some(InTransit)) && HasTo(out, None, None, None)
              && HasFrom(back, None, None, None) && HasTo(back, m.locationTo, m.palletTo, m.bucketToOverride)
            else
              && |rows| == |s.ledger| + 1
              && var row := rows[|s.ledger|];
              && Documents(row, m, m.warehouse)
              && var debits := !row.bucketFrom.None?;
              && var credits := !row.bucketTo.None?;
              && HasFrom(row, if debits then m.locationFrom else None, if debits then m.palletFrom else None, row.bucketFrom)
              && HasTo(row,
                       if credits then ThereOrHere(m).location else None, if credits then ThereOrHere(m).pallet else None,
                       row.bucketTo)
              && Exchanges(s, m,
                           if debits then Some(Leg(Here(m), row.bucketFrom.value)) else None,
                           if !credits then None
                           else if m.movementType.Putaway? || m.movementType.TransferenciaInterna? || m.movementType.Reposicao?
                           then Some(Leg(There(m, m.warehouse), row.bucketTo.value))
                           else Some(Leg(ThereOrHere(m), row.bucketTo.value)))
  {
    PostedExchanges(s, m, PostingOf(m).value.debit, PostingOf(m).value.credit);
  }
}
