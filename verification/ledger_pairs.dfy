/** Movements that undo or complete each other. */
module LedgerPairs {
  import opened Common
  import opened StockEffects
  import opened StockLedger
  import opened LedgerReplay

  /** The type that takes back what another one did. */
  function Reverse(t: MovementType): Option<MovementType> {
    match t
    case Reserva => Some(LiberacaoReserva)
    case LiberacaoReserva => Some(Reserva)
    case Bloqueio => Some(Desbloqueio)
    case Desbloqueio => Some(Bloqueio)
    case _ => None
  }

  /** A movement of content that stays where it is. */
  predicate InPlace(m: Movement) {
    && (m.locationTo.None? || m.locationTo == m.locationFrom)
    && (m.palletTo.None? || m.palletTo == m.palletFrom)
  }

  /** After a reservation, a release, a block or an unblock, its reverse is accepted and restores every quantity. */
  lemma ReverseUndoes(s: Stock, m: Movement)
    requires InPlace(m) && Reverse(m.movementType).Some? && Applied(s, m).Success? && NonNegative(s.balances)
    ensures var back := m.(movementType := Reverse(m.movementType).value);
            var s1 := Applied(s, m).value;
            && Applied(s1, back).Success?
            && SameStock(Applied(s1, back).value.balances, s.balances)
            && |Applied(s1, back).value.ledger| == |s.ledger| + 2
  {
    var back := m.(movementType := Reverse(m.movementType).value);
    var p, q := PostingOf(m).value, PostingOf(back).value;
    var s1 := Applied(s, m).value;
    assert q.debit == p.credit && q.credit == p.debit;
    QtyOfPostOption(s.balances, p.debit, -m.qty, p.credit.value);
    QtyOfPostOption(PostOption(s.balances, p.debit, -m.qty), p.credit, m.qty, p.credit.value);
    assert 0 <= Qty(s.balances, p.credit.value);
    var s2 := Applied(s1, back).value;
    forall l: Leg ensures Qty(s2.balances, l) == Qty(s.balances, l) {
      QtyOfPostOption(s.balances, p.debit, -m.qty, l);
      QtyOfPostOption(PostOption(s.balances, p.debit, -m.qty), p.credit, m.qty, l);
      QtyOfPostOption(s1.balances, q.debit, -m.qty, l);
      QtyOfPostOption(PostOption(s1.balances, q.debit, -m.qty), q.credit, m.qty, l);
    }
  }

  /** Reserved or blocked stock is out of reach: the reservation takes it from what is available, and fails beyond that. */
  lemma OnlyAvailableStockIsTaken(s: Stock, m: Movement)
    requires InPlace(m) && (m.movementType.Reserva? || m.movementType.Bloqueio?)
    ensures var available := Leg(m.KeyAt(m.warehouse, m.locationFrom, m.palletFrom), Available);
            && (Applied(s, m).Success? <==> 0 < m.qty <= Qty(s.balances, available))
            && (Applied(s, m).Success? ==> Qty(Applied(s, m).value.balances, available) == Qty(s.balances, available) - m.qty)
  {
  }

  /** Goods dispatched to another warehouse and received there have left the origin, are no longer in transit, and are at the destination. */
  lemma TransferDelivers(s: Stock, out: Movement, back: Movement)
    requires out.movementType.TransferenciaSaidaArmazem? && InPlace(out) && Applied(s, out).Success? && NonNegative(s.balances)
    requires back.movementType.TransferenciaEntradaArmazem? && back.destination.Some? && back.destination.value != out.warehouse
    requires back.KeyAt(back.warehouse, back.locationFrom, back.palletFrom) == out.KeyAt(out.warehouse, out.locationFrom, out.palletFrom)
    requires back.qty == out.qty && back.bucketToOverride.Some?
    ensures var s1 := Applied(s, out).value;
            var origin := out.KeyAt(out.warehouse, out.locationFrom, out.palletFrom);
            var arrived := Leg(back.KeyAt(back.destination.value, back.locationTo, back.palletTo), back.bucketToOverride.value);
            && Applied(s1, back).Success?
            && var s2 := Applied(s1, back).value;
            && Qty(s2.balances, Leg(origin, Available)) == Qty(s.balances, Leg(origin, Available)) - out.qty
            && Qty(s2.balances, Leg(origin, InTransit)) == Qty(s.balances, Leg(origin, InTransit))
            && Qty(s2.balances, arrived) == Qty(s.balances, arrived) + out.qty
  {
    var origin := out.KeyAt(out.warehouse, out.locationFrom, out.palletFrom);
    assert 0 <= Qty(s.balances, Leg(origin, InTransit));
    var s1 := Applied(s, out).value;
    assert Qty(s1.balances, Leg(origin, InTransit)) == Qty(s.balances, Leg(origin, InTransit)) + out.qty;
    assert PostingOf(back).value.debit == Some(Leg(origin, InTransit));
  }
}
