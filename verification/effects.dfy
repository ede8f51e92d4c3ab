/** The closed catalogue of movement types and the bucket each one debits and credits. */
module StockEffects {
  import opened Common

  datatype Bucket = Available | Reserved | Blocked | Quarantine | Damaged | InTransit

  datatype MovementType =
    | EntradaRecebimento
    | Putaway
    | Reserva
    | LiberacaoReserva
    | Picking
    | TransferenciaInterna
    | TransferenciaSaidaArmazem
    | TransferenciaEntradaArmazem
    | Reposicao
    | Bloqueio
    | Desbloqueio
    | LiberacaoQuarentena
    | ReclassificacaoAvaria
    | AjusteInventarioPos
    | AjusteInventarioNeg
    | Descarte
    | EntradaReversa
    | SaidaExpedicao

  datatype Effect = Effect(bucketFrom: Option<Bucket>, bucketTo: Option<Bucket>)

  datatype MovementError =
    | InvalidQty
    | MissingBucketOverride
    | MissingDestinationWarehouse
    | InsufficientBalance

  predicate IsLocationMove(t: MovementType) {
    t.Putaway? || t.TransferenciaInterna? || t.Reposicao?
  }

  function Required(from: Option<Bucket>, to: Option<Bucket>, needed: Option<Bucket>): Result<Effect, MovementError> {
    if needed.None? then Failure(MissingBucketOverride) else Success(Effect(from, to))
  }

  function ResolveEffect(t: MovementType, from: Option<Bucket>, to: Option<Bucket>): Result<Effect, MovementError> {
    match t
    case Putaway | TransferenciaInterna | Reposicao =>
      var bucket := OrElse(from, to);
      Required(bucket, bucket, bucket)
    case EntradaRecebimento => Required(None, to, to)
    case Reserva => Success(Effect(Some(Available), Some(Reserved)))
    case LiberacaoReserva => Success(Effect(Some(Reserved), Some(Available)))
    case Picking => Success(Effect(Some(Reserved), None))
    case TransferenciaSaidaArmazem => Success(Effect(Some(Available), Some(InTransit)))
    case TransferenciaEntradaArmazem => Required(Some(InTransit), to, to)
    case Bloqueio => Success(Effect(Some(Available), Some(Blocked)))
    case Desbloqueio => Success(Effect(Some(Blocked), Some(Available)))
    case LiberacaoQuarentena => Success(Effect(Some(Quarantine), Some(Available)))
    case ReclassificacaoAvaria => Required(from, Some(Damaged), from)
    case AjusteInventarioPos => Success(Effect(None, OrElse(to, Some(Available))))
    case AjusteInventarioNeg => Success(Effect(OrElse(from, Some(Available)), None))
    case Descarte => Required(from, None, from)
    case EntradaReversa => Required(None, to, to)
    case SaidaExpedicao => Success(Effect(OrElse(from, Some(Reserved)), None))
  }

  /** How a type changes the amount of stock on hand. */
  datatype Flow = Entry | Exit | Neutral

  function FlowOf(t: MovementType): Flow {
    match t
    case EntradaRecebimento | EntradaReversa | AjusteInventarioPos => Entry
    case Picking | AjusteInventarioNeg | Descarte | SaidaExpedicao => Exit
    case _ => Neutral
  }
}
