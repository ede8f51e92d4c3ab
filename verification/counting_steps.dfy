/**
 What the calls of a count do, said of the rounds, the cells and the locations themselves: when a round
 is refused, what it leaves, what is asked of the workflow, and what the accuracies are.
 */
module CountingSteps {
  import opened Common
  import opened StockEffects
  import opened StockLedger
  import opened Counting

  /** The rounds settle a cell: the last one confirms the system, or repeats the first, or is the third. */
  predicate Settled(rounds: seq<Round>, systemQty: int) {
    && rounds != []
    && (rounds[|rounds| - 1].qty == systemQty || |rounds| >= 3 || (|rounds| == 2 && rounds[1].qty == rounds[0].qty))
  }

  /** The first objection to a round, in the order in which the checks are made. */
  predicate Objects(c: Cell, input: RoundInput, error: CountError) {
    var here := c.warehouse == input.warehouse;
    var open := here && (c.status == CellPending || c.status == CellCounting);
    var due := open && !Settled(c.rounds, c.systemQty);
    var free := due && !(|c.rounds| == 1 && c.rounds[0].user == input.user);
    var led := free && (|c.rounds| == 2 ==> input.leader);
    match error
    case WarehouseMismatch => !here
    case CellNotCountable => here && !open
    case CellAlreadyResolved => open && !due
    case SameOperatorRound2 => due && !free
    case ShiftLeaderRequired => free && !led
    case NegativeCount => led && input.qty < 0
    case _ => false
  }

  /** A round is registered on a countable, unsettled cell of the caller's warehouse, by the right person, and not below zero. */
  predicate Welcomes(c: Cell, input: RoundInput) {
    && c.warehouse == input.warehouse && (c.status == CellPending || c.status == CellCounting)
    && !Settled(c.rounds, c.systemQty)
    && (|c.rounds| == 1 ==> c.rounds[0].user != input.user) && (|c.rounds| == 2 ==> input.leader) && input.qty >= 0
  }

  /** A round is refused exactly with the first objection, if there is one. */
  lemma RefusedExactly(c: Cell, input: RoundInput)
    ensures RoundRefusal(c, input).None? <==> Welcomes(c, input)
    ensures forall error :: RoundRefusal(c, input) == Some(error) <==> Objects(c, input, error)
  {
  }

  /** The tables differ in cell `i` of count `h` alone, in the status and accuracy of that count, and in one location. */
  predicate OnlyCell(s: Counts, t: Counts, h: Id, i: nat)
    requires s.Has(h, i)
  {
    && t.headers.Keys == s.headers.Keys && t.locations.Keys == s.locations.Keys + (if t.locations == s.locations then {} else {s.Cell(h, i).location})
    && (forall k :: k in s.headers && k != h ==> t.headers[k] == s.headers[k])
    && |t.headers[h].cells| == |s.headers[h].cells|
    && (forall j :: 0 <= j < |s.headers[h].cells| && j != i ==> t.headers[h].cells[j] == s.headers[h].cells[j])
    && (forall l :: l in s.locations && l != s.Cell(h, i).location ==> t.locations[l] == s.locations[l])
  }

  /** The cell as it was, with one more round, a new status and perhaps an exception. */
  predicate Counted(c: Cell, input: RoundInput, status: CellStatus, exception: Option<Id>, d: Cell) {
    d == c.(rounds := c.rounds + [Round(|c.rounds| + 1, input.qty, input.user, input.leader)], status := status, exception := exception)
  }

  predicate AllDoneAt(cells: seq<Cell>, l: Id) {
    forall j :: 0 <= j < |cells| && cells[j].location == l ==> cells[j].status == CellDone
  }

  /** The location is active again exactly when all cells there are done, and the count closed exactly when all cells are. */
  predicate ReleasedWhenDone(s: Counts, t: Counts, h: Id, l: Id)
    requires h in s.headers && h in t.headers
  {
    var cells := t.headers[h].cells;
    && t.locations == (if AllDoneAt(cells, l) then s.locations[l := Active] else s.locations)
    && if forall j :: 0 <= j < |cells| ==> cells[j].status == CellDone
       then t.headers[h].status == HeaderCompleted && t.headers[h].accuracy == Some(AccuracyOf(cells))
       else t.headers[h].status == s.headers[h].status && t.headers[h].accuracy == s.headers[h].accuracy
  }

  lemma FinishedExactly(s: Counts, h: Id, i: nat, c: Cell)
    requires s.Has(h, i) && c.location == s.Cell(h, i).location
    ensures var t := Finished(s, h, i, c);
            t.Has(h, i) && OnlyCell(s, t, h, i) && t.Cell(h, i) == c.(status := CellDone) && ReleasedWhenDone(s, t, h, c.location)
  {
  }

  /**
   A round that does not settle its cell leaves it in counting; one that confirms the system finishes it and releases
   what it was the last to hold; any other that settles it leaves it to the adjustment, as the count in progress.
   */
  lemma SubmittedExactly(s: Counts, h: Id, i: nat, input: RoundInput, e: Id)
    requires s.Has(h, i) && RoundRefusal(s.Cell(h, i), input).None?
    ensures var c, t := s.Cell(h, i), RoundSubmitted(s, h, i, input, e);
            var rounds := c.rounds + [Round(|c.rounds| + 1, input.qty, input.user, input.leader)];
            && t.Has(h, i) && OnlyCell(s, t, h, i)
            && if input.qty == c.systemQty then
                 Counted(c, input, CellDone, c.exception, t.Cell(h, i)) && ReleasedWhenDone(s, t, h, c.location)
               else if Settled(rounds, c.systemQty) then
                 && Counted(c, input, CellAdjusting, Some(e), t.Cell(h, i))
                 && t.locations == s.locations && t.headers[h].accuracy == s.headers[h].accuracy
                 && t.headers[h].status == if s.headers[h].status == HeaderInProgress then HeaderAdjusting else s.headers[h].status
               else
                 && Counted(c, input, CellCounting, c.exception, t.Cell(h, i))
                 && t.locations == s.locations && t.headers[h].accuracy == s.headers[h].accuracy
                 && t.headers[h].status == s.headers[h].status
  {
    var c := s.Cell(h, i);
    RefusedExactly(c, input);
    var d := WithRound(c, input);
    if input.qty == c.systemQty {
      FinishedExactly(s, h, i, d);
    }
  }

  /** The available stock of a cell's content in a warehouse, at the cell's location and on no pallet. */
  function UnpalletisedAt(c: Cell, warehouse: Id): Leg
    requires c.product.Some?
  {
    Leg(Key(c.tenant, warehouse, c.product.value, c.batch, Some(c.location), None), Available)
  }

  /** The one row of an adjustment: its type by the sign, for the cell, on account of the exception. */
  predicate AdjustmentRow(row: Row, c: Cell, e: Id, at: Id, difference: int)
    requires c.product.Some?
  {
    && row.requirement == Some(e) && row.documentRef == Some(c.id) && row.task == None && row.warehouse == at
    && if difference > 0 then
         row.movementType == AjusteInventarioPos && row.qty == difference
         && row.DebitLeg() == None && row.CreditLeg() == Some(UnpalletisedAt(c, at))
       else
         row.movementType == AjusteInventarioNeg && row.qty == 0 - difference
         && row.DebitLeg() == Some(UnpalletisedAt(c, at)) && row.CreditLeg() == None
  }

  /** The difference is on the books: in one row, and in one bucket of the caller's warehouse. */
  ghost predicate Adjusted(s: Stock, c: Cell, e: Id, at: Id, difference: int, after: Stock)
    requires c.product.Some?
  {
    && |after.ledger| == |s.ledger| + 1 && s.ledger <= after.ledger && AdjustmentRow(after.ledger[|s.ledger|], c, e, at, difference)
    && forall l: Leg :: Qty(after.balances, l) == Qty(s.balances, l) + (if l == UnpalletisedAt(c, at) then difference else 0)
  }

  lemma PostedAdjustment(s: Stock, c: Cell, e: Id, at: Id)
    requires c.product.Some? && c.rounds != []
    ensures var difference := c.rounds[|c.rounds| - 1].qty - c.systemQty;
            var r := Applied(s, AdjustmentMovement(c, e, at));
            && (r.Success? <==> difference > 0 || (difference < 0 && 0 - difference <= Qty(s.balances, UnpalletisedAt(c, at))))
            && (r.Success? ==> Adjusted(s, c, e, at, difference, r.value))
            && (r.Failure? ==> r.error == if difference == 0 then InvalidQty else InsufficientBalance)
  {
  }

  /**
   A rejection opens the cell again and keeps its rounds as history. An approval is applied when the cell has a product
   and a count and a loss finds its stock in the caller's warehouse; then the difference is posted and the cell finished.
   */
  lemma DecidedAdjustmentExactly(s: Counts, stock: Stock, h: Id, i: nat, e: Id, at: Id, approved: bool)
    requires s.Has(h, i)
    ensures var c, r := s.Cell(h, i), AdjustmentDecided(s, stock, h, i, e, at, approved);
            && (!approved ==>
                  && r.Success? && r.value.stock == stock
                  && r.value.counts.Has(h, i) && OnlyCell(s, r.value.counts, h, i)
                  && r.value.counts.locations == s.locations && r.value.counts.headers[h].status == s.headers[h].status
                  && r.value.counts.Cell(h, i) ==
                       c.(status := CellPending, exception := None, past := c.past + [c.rounds], rounds := []))
            && (approved && (c.product.None? || c.rounds == []) ==> r == Failure(NoProduct))
            && (approved && c.product.Some? && c.rounds != [] ==>
                  var difference := c.rounds[|c.rounds| - 1].qty - c.systemQty;
                  if difference == 0 then r == Failure(CountError.Movement(InvalidQty))
                  else if difference < 0 && Qty(stock.balances, UnpalletisedAt(c, at)) < 0 - difference then
                    r == Failure(CountError.Movement(InsufficientBalance))
                  else
                    && r.Success? && Adjusted(stock, c, e, at, difference, r.value.stock)
                    && r.value.counts.Has(h, i) && OnlyCell(s, r.value.counts, h, i)
                    && r.value.counts.Cell(h, i) == c.(status := CellDone)
                    && ReleasedWhenDone(s, r.value.counts, h, c.location))
  {
    var c := s.Cell(h, i);
    if approved && c.product.Some? && c.rounds != [] {
      PostedAdjustment(stock, c, e, at);
      FinishedExactly(s, h, i, c);
    }
  }

  function Places(cells: seq<Cell>): set<Id> {
    set i | 0 <= i < |cells| :: cells[i].location
  }

  /** The places where every cell was counted as the system had it. */
  function ExactPlaces(cells: seq<Cell>): set<Id> {
    set l | l in Places(cells) && forall i :: 0 <= i < |cells| && cells[i].location == l ==> Apart(cells)[i] == 0
  }

  lemma QuotientTimes(x: real, y: real)
    requires y != 0.0
    ensures x / y * y == x
  {
  }

  /** Location accuracy is the share of places counted without divergence. */
  lemma LocationAccuracyIs(cells: seq<Cell>)
    ensures cells == [] ==> AccuracyOf(cells).byLocation == 1.0
    ensures cells != [] ==>
              |Places(cells)| > 0 && AccuracyOf(cells).byLocation * |Places(cells)| as real == |ExactPlaces(cells)| as real
  {
    assert Places(cells) == Locations(cells);
    assert ExactPlaces(cells) == MatchingLocations(cells) by {
      forall l | l in Places(cells) ensures l in ExactPlaces(cells) <==> AllMatchAt(cells, l) {
        ExactAt(cells, l);
      }
    }
    if cells != [] {
      assert cells[0].location in Locations(cells);
      QuotientTimes(|ExactPlaces(cells)| as real, |Places(cells)| as real);
    }
  }

  /** Quantity accuracy is one minus what the counts diverge by, over what the system held. */
  lemma QuantityAccuracyIs(cells: seq<Cell>)
    ensures Sum(Held(cells)) <= 0 ==> AccuracyOf(cells).byQuantity == 1.0
    ensures Sum(Held(cells)) > 0 ==>
              (1.0 - AccuracyOf(cells).byQuantity) * Sum(Held(cells)) as real == Sum(Apart(cells)) as real
  {
    assert Held(cells) == SystemQtys(cells) && Apart(cells) == Divergences(cells);
    if Sum(Held(cells)) > 0 {
      QuotientTimes(Sum(Apart(cells)) as real, Sum(Held(cells)) as real);
    }
  }

  lemma ExactAt(cells: seq<Cell>, l: Id)
    ensures AllMatchAt(cells, l) <==> forall i :: 0 <= i < |cells| && cells[i].location == l ==> Apart(cells)[i] == 0
  {
    if AllMatchAt(cells, l) {
      forall i | 0 <= i < |cells| && cells[i].location == l ensures Apart(cells)[i] == 0 {
        assert cells[i].FinalQty() == cells[i].systemQty;
      }
    } else {
      var i :| 0 <= i < |cells| && cells[i].location == l && cells[i].FinalQty() != cells[i].systemQty;
      assert Apart(cells)[i] != 0;
    }
  }

  function Held(cells: seq<Cell>): seq<int> {
    seq(|cells|, i requires 0 <= i < |cells| => cells[i].systemQty)
  }

  /** How far the count that stands is from what the system held, cell by cell. */
  function Apart(cells: seq<Cell>): seq<int> {
    seq(|cells|, i requires 0 <= i < |cells| =>
      var counted := if cells[i].rounds == [] then cells[i].systemQty else cells[i].rounds[|cells[i].rounds| - 1].qty;
      if counted < cells[i].systemQty then cells[i].systemQty - counted else counted - cells[i].systemQty)
  }
}
