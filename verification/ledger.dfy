/**
 The stock ledger: six-bucket balances and the append-only movement rows, both written
 only by `StockDatabase.Apply`. Quantities are whole numbers of millionths.
 */
module StockLedger {
  import opened Common
  import opened StockEffects

  datatype Key = Key(
    tenant: Id, warehouse: Id, product: Id,
    batch: Option<Id>, location: Option<Id>, pallet: Option<Id>)

  /** One of the six quantity columns of one balance row. */
  datatype Leg = Leg(key: Key, bucket: Bucket)

  /** The balance table, column by column. A column never written holds its default, zero. */
  type Balances = map<Leg, int>

  function Qty(m: Balances, leg: Leg): int {
    if leg in m then m[leg] else 0
  }

  function Post(m: Balances, leg: Leg, d: int): Balances {
    m[leg := Qty(m, leg) + d]
  }

  datatype Row = Row(
    tenant: Id, warehouse: Id, movementType: MovementType, product: Id, batch: Option<Id>,
    locationFrom: Option<Id>, palletFrom: Option<Id>, bucketFrom: Option<Bucket>,
    locationTo: Option<Id>, palletTo: Option<Id>, bucketTo: Option<Bucket>,
    qty: int, documentRef: Option<Id>, task: Option<Id>, requirement: Option<Id>, policyBreak: bool)
  {
    function DebitLeg(): Option<Leg> {
      if bucketFrom.None? then None
      else Some(Leg(Key(tenant, warehouse, product, batch, locationFrom, palletFrom), bucketFrom.value))
    }

    function CreditLeg(): Option<Leg> {
      if bucketTo.None? then None
      else Some(Leg(Key(tenant, warehouse, product, batch, locationTo, palletTo), bucketTo.value))
    }
  }

  datatype Stock = Stock(balances: Balances, ledger: seq<Row>)

  const EMPTY_STOCK := Stock(map[], [])

  /** The parameters of one movement; audit-only fields are left out. */
  datatype Movement = Movement(
    tenant: Id, warehouse: Id, destination: Option<Id>, movementType: MovementType,
    product: Id, batch: Option<Id>, qty: int,
    locationFrom: Option<Id>, palletFrom: Option<Id>, locationTo: Option<Id>, palletTo: Option<Id>,
    bucketFromOverride: Option<Bucket>, bucketToOverride: Option<Bucket>,
    documentRef: Option<Id>, task: Option<Id>, requirement: Option<Id>, policyBreak: bool)
  {
    function KeyAt(w: Id, location: Option<Id>, pallet: Option<Id>): Key {
      Key(tenant, w, product, batch, location, pallet)
    }

    predicate HasOrigin() {
      locationFrom.Some? || palletFrom.Some?
    }

    /** A location move that names no origin is the first entry of its content: no debit. */
    predicate IsFirstEntry() {
      IsLocationMove(movementType) && !HasOrigin()
    }

    /**
     The only movements whose ledger row can name another key than the one credited are location
     moves that leave out a "to" side where the "from" side is given.
     */
    predicate SidesAgree() {
      IsLocationMove(movementType) ==>
        (locationFrom.Some? ==> locationTo.Some?) && (palletFrom.Some? ==> palletTo.Some?)
    }
  }

  datatype Record = Record(movementIds: seq<nat>, bucketFrom: Option<Bucket>, bucketTo: Option<Bucket>, qty: int)

  /** What an accepted movement writes: at most one debit, at most one credit, and its ledger rows. */
  datatype Posting = Posting(debit: Option<Leg>, credit: Option<Leg>, rows: seq<Row>)

  function RowOf(
    m: Movement, warehouse: Id,
    locationFrom: Option<Id>, palletFrom: Option<Id>, bucketFrom: Option<Bucket>,
    locationTo: Option<Id>, palletTo: Option<Id>, bucketTo: Option<Bucket>): Row
  {
    Row(m.tenant, warehouse, m.movementType, m.product, m.batch,
        locationFrom, palletFrom, bucketFrom, locationTo, palletTo, bucketTo,
        m.qty, m.documentRef, m.task, m.requirement, m.policyBreak)
  }

  function TransferPosting(m: Movement, e: Effect, destination: Id): Posting
    requires e.bucketFrom.Some? && e.bucketTo.Some?
  {
    Posting(
      Some(Leg(m.KeyAt(m.warehouse, m.locationFrom, m.palletFrom), e.bucketFrom.value)),
      Some(Leg(m.KeyAt(destination, m.locationTo, m.palletTo), e.bucketTo.value)),
      [RowOf(m, m.warehouse, m.locationFrom, m.palletFrom, e.bucketFrom, None, None, None),
       RowOf(m, destination, None, None, None, m.locationTo, m.palletTo, e.bucketTo)])
  }

  function LocalPosting(m: Movement, e: Effect): Posting {
    var debits := e.bucketFrom.Some? && !m.IsFirstEntry();
    var move := IsLocationMove(m.movementType);
    var locationTo := OrElse(m.locationTo, m.locationFrom);
    var palletTo := OrElse(m.palletTo, m.palletFrom);
    Posting(
      if debits then Some(Leg(m.KeyAt(m.warehouse, m.locationFrom, m.palletFrom), e.bucketFrom.value)) else None,
      if e.bucketTo.None? then None
      else Some(Leg(m.KeyAt(m.warehouse, if move then m.locationTo else locationTo, if move then m.palletTo else palletTo),
                    e.bucketTo.value)),
      [RowOf(m, m.warehouse,
             if debits then m.locationFrom else None, if debits then m.palletFrom else None,
             if debits then e.bucketFrom else None,
             if e.bucketTo.Some? then locationTo else None, if e.bucketTo.Some? then palletTo else None,
             e.bucketTo)])
  }

  function PostingOf(m: Movement): Result<Posting, MovementError> {
    if m.qty <= 0 then Failure(InvalidQty)
    else
      match ResolveEffect(m.movementType, m.bucketFromOverride, m.bucketToOverride)
      case Failure(error) => Failure(error)
      case Success(e) =>
        if m.movementType.TransferenciaEntradaArmazem? then
          if m.destination.None? then Failure(MissingDestinationWarehouse)
          else Success(TransferPosting(m, e, m.destination.value))
        else Success(LocalPosting(m, e))
  }

  function PostOption(m: Balances, leg: Option<Leg>, d: int): Balances {
    if leg.None? then m else Post(m, leg.value, d)
  }

  function Posted(s: Stock, p: Posting, qty: int): Stock {
    Stock(PostOption(PostOption(s.balances, p.debit, -qty), p.credit, qty), s.ledger + p.rows)
  }

  /** The stock after one movement, or why it is refused. A refused movement writes nothing. */
  function Applied(s: Stock, m: Movement): Result<Stock, MovementError> {
    match PostingOf(m)
    case Failure(error) => Failure(error)
    case Success(p) =>
      if p.debit.Some? && Qty(s.balances, p.debit.value) < m.qty then Failure(InsufficientBalance)
      else Success(Posted(s, p, m.qty))
  }

  function Step(s: Stock, m: Movement): Stock {
    var r := Applied(s, m);
    if r.Success? then r.value else s
  }

  /** A run of movements, some accepted and some refused. */
  function Run(s: Stock, ms: seq<Movement>): Stock {
    if ms == [] then s else Step(Run(s, ms[..|ms| - 1]), ms[|ms| - 1])
  }

  class StockDatabase {
    var balances: Balances
    var ledger: seq<Row>

    constructor ()
      ensures State() == EMPTY_STOCK
    {
      balances := map[];
      ledger := [];
    }

    function State(): Stock
      reads this
    {
      Stock(balances, ledger)
    }

    /** Takes `qty` from one bucket when it holds that much; otherwise touches nothing. */
    method Debit(leg: Leg, qty: int) returns (ok: bool)
      requires 0 < qty
      modifies this`balances
      ensures ok == (qty <= Qty(old(balances), leg))
      ensures balances == if ok then Post(old(balances), leg, -qty) else old(balances)
    {
      ok := leg in balances && qty <= balances[leg];
      if ok {
        balances := balances[leg := balances[leg] - qty];
      }
    }

    /** Adds `qty` to one bucket, creating its row when it does not exist. */
    method Credit(leg: Leg, qty: int)
      modifies this`balances
      ensures balances == Post(old(balances), leg, qty)
    {
      if leg in balances {
        balances := balances[leg := balances[leg] + qty];
      } else {
        balances := balances[leg := qty];
      }
    }

    method InsertMovementRow(row: Row) returns (id: nat)
      modifies this`ledger
      ensures ledger == old(ledger) + [row] && id == |old(ledger)| && ledger[id] == row
    {
      id := |ledger|;
      ledger := ledger + [row];
    }

    method Apply(m: Movement) returns (r: Result<Record, MovementError>)
      modifies this
      ensures r.Success? == Applied(old(State()), m).Success?
      ensures r.Success? ==> State() == Applied(old(State()), m).value
      ensures r.Failure? ==> State() == old(State()) && r.error == Applied(old(State()), m).error
      ensures r.Success? ==>
        && r.value.qty == m.qty
        && r.value.movementIds == seq(|ledger| - |old(ledger)|, i requires 0 <= i => |old(ledger)| + i)
        && r.value.bucketTo == ledger[|ledger| - 1].bucketTo
        && r.value.bucketFrom == ledger[|old(ledger)|].bucketFrom
    {
      if m.qty <= 0 {
        return Failure(InvalidQty);
      }
      var effect := ResolveEffect(m.movementType, m.bucketFromOverride, m.bucketToOverride);
      if effect.Failure? {
        return Failure(effect.error);
      }
      var bucketFrom, bucketTo := effect.value.bucketFrom, effect.value.bucketTo;

      if m.movementType.TransferenciaEntradaArmazem? {
        if m.destination.None? {
          return Failure(MissingDestinationWarehouse);
        }
        var ok := Debit(Leg(m.KeyAt(m.warehouse, m.locationFrom, m.palletFrom), bucketFrom.value), m.qty);
        if !ok {
          return Failure(InsufficientBalance);
        }
        var originId := InsertMovementRow(RowOf(m, m.warehouse, m.locationFrom, m.palletFrom, bucketFrom, None, None, None));
        Credit(Leg(m.KeyAt(m.destination.value, m.locationTo, m.palletTo), bucketTo.value), m.qty);
        var destinationId := InsertMovementRow(RowOf(m, m.destination.value, None, None, None, m.locationTo, m.palletTo, bucketTo));
        return Success(Record([originId, destinationId], bucketFrom, bucketTo, m.qty));
      }

      var isLocationMove := IsLocationMove(m.movementType);
      var shouldDebit := bucketFrom.Some? && (!isLocationMove || m.HasOrigin());
      if shouldDebit {
        var ok := Debit(Leg(m.KeyAt(m.warehouse, m.locationFrom, m.palletFrom), bucketFrom.value), m.qty);
        if !ok {
          return Failure(InsufficientBalance);
        }
      }
      if bucketTo.Some? {
        var creditLocation := if isLocationMove then m.locationTo else OrElse(m.locationTo, m.locationFrom);
        var creditPallet := if isLocationMove then m.palletTo else OrElse(m.palletTo, m.palletFrom);
        Credit(Leg(m.KeyAt(m.warehouse, creditLocation, creditPallet), bucketTo.value), m.qty);
      }
      var movementId := InsertMovementRow(RowOf(
        m, m.warehouse,
        if shouldDebit then m.locationFrom else None,
        if shouldDebit then m.palletFrom else None,
        if shouldDebit then bucketFrom else None,
        if bucketTo.Some? then OrElse(m.locationTo, m.locationFrom) else None,
        if bucketTo.Some? then OrElse(m.palletTo, m.palletFrom) else None,
        bucketTo));
      return Success(Record([movementId], if shouldDebit then bucketFrom else None, bucketTo, m.qty));
    }
  }
}
