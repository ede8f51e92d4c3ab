/** Inventory counting: blind rounds per cell, adjustments through the exception workflow, frozen locations. */
module Counting {
  import opened Common
  import opened StockEffects
  import opened StockLedger
  import A = Approval

  /** The exception type of a count adjustment. */
  const ADJUSTMENT_KIND: Id := 2

  // ---- The decision tree of the rounds -----------------------------------------------------

  /** A registered count. `leader` is what the role tables said of the operator at that moment. */
  datatype Round = Round(number: nat, qty: int, user: Id, leader: bool)

  datatype Outcome = AwaitingRound(next: nat, notBy: Option<Id>, leaderOnly: bool) | Matches | Diverges(amount: int)

  function EvaluateCountRounds(systemQty: int, rounds: seq<Round>): Outcome {
    if |rounds| == 0 then AwaitingRound(1, None, false)
    else if |rounds| == 1 then
      if rounds[0].qty == systemQty then Matches else AwaitingRound(2, Some(rounds[0].user), false)
    else if |rounds| == 2 then
      if rounds[1].qty == systemQty then Matches
      else if rounds[1].qty == rounds[0].qty then Diverges(rounds[1].qty - systemQty)
      else AwaitingRound(3, None, true)
    else
      var divergence := rounds[2].qty - systemQty;
      if divergence == 0 then Matches else Diverges(divergence)
  }

  /** Numbered from one, at most three; the second by someone else, the third by a shift leader. */
  ghost predicate RoundsOk(rounds: seq<Round>) {
    && |rounds| <= 3
    && (forall i :: 0 <= i < |rounds| ==> rounds[i].number == i + 1)
    && (|rounds| >= 2 ==> rounds[1].user != rounds[0].user)
    && (|rounds| == 3 ==> rounds[2].leader)
  }

  /** Somebody else counted the same as the last operator. */
  predicate AgreedByAnother(rounds: seq<Round>)
    requires rounds != []
  {
    var last := rounds[|rounds| - 1];
    exists i :: 0 <= i < |rounds| - 1 && rounds[i].qty == last.qty && rounds[i].user != last.user
  }

  /** The tree settles on a count that two different people agree on, or on a shift leader's. */
  lemma TreeMeaning(systemQty: int, rounds: seq<Round>)
    requires RoundsOk(rounds) && (forall i :: 0 <= i < |rounds| ==> EvaluateCountRounds(systemQty, rounds[..i]).AwaitingRound?)
    ensures var outcome := EvaluateCountRounds(systemQty, rounds);
            var last := if rounds == [] then systemQty else rounds[|rounds| - 1].qty;
            && (outcome.Matches? <==> rounds != [] && last == systemQty)
            && (outcome.Diverges? <==> (&& rounds != [] && last != systemQty
                                        && (|rounds| == 3 || AgreedByAnother(rounds))))
            && (outcome.Diverges? ==> outcome.amount == last - systemQty)
            && (outcome.AwaitingRound? ==> outcome.next == |rounds| + 1)
  {
    if |rounds| == 2 {
      assert rounds[0].user != rounds[1].user;
    }
    if |rounds| > 0 {
      assert rounds[..0] == [];
    }
  }

  // ---- Cells, headers and locations --------------------------------------------------------

  datatype CellStatus = CellPending | CellCounting | CellAdjusting | CellDone

  /** A cell to count. `past` holds the rounds of earlier cycles, `rounds` those of the current one. */
  datatype Cell = Cell(
    id: Id, tenant: Id, warehouse: Id, location: Id, product: Option<Id>, batch: Option<Id>, systemQty: int,
    status: CellStatus, past: seq<seq<Round>>, rounds: seq<Round>, exception: Option<Id>)
  {
    /** What is available of the cell's content, on no pallet, in some warehouse. */
    function LegAt(at: Id): Leg
      requires product.Some?
    {
      Leg(Key(tenant, at, product.value, batch, Some(location), None), Available)
    }

    /** The cell's own key: the one in its own warehouse. */
    function OwnLeg(): Leg
      requires product.Some?
    {
      LegAt(warehouse)
    }

    predicate Countable() {
      status.CellPending? || status.CellCounting?
    }

    function Outcome(): Outcome {
      EvaluateCountRounds(systemQty, rounds)
    }

    /** The count that stands: the last one of the current cycle. */
    function FinalQty(): int {
      if rounds == [] then systemQty else rounds[|rounds| - 1].qty
    }
  }

  datatype Accuracy = Accuracy(byLocation: real, byQuantity: real)

  datatype HeaderStatus = HeaderPlanned | HeaderInProgress | HeaderAdjusting | HeaderCompleted | HeaderCancelled

  datatype Header = Header(status: HeaderStatus, cells: seq<Cell>, accuracy: Option<Accuracy>)
  {
    predicate Started() {
      status.HeaderInProgress? || status.HeaderAdjusting?
    }
  }

  datatype LocationStatus = Active | Inventory | Inactive

  datatype CellRef = CellRef(header: Id, index: nat)

  datatype Counts = Counts(headers: map<Id, Header>, locations: map<Id, LocationStatus>)
  {
    predicate Has(h: Id, i: nat) {
      h in headers && i < |headers[h].cells|
    }

    function Cell(h: Id, i: nat): Cell
      requires Has(h, i)
    {
      headers[h].cells[i]
    }

    predicate Links(ref: CellRef, e: Id) {
      Has(ref.header, ref.index) && Cell(ref.header, ref.index).exception == Some(e)
    }

    function WithCell(h: Id, i: nat, c: Cell): Counts
      requires Has(h, i)
    {
      this.(headers := headers[h := headers[h].(cells := headers[h].cells[i := c])])
    }
  }

  /** A place in the store and what the balance table says it holds. */
  datatype Scope = Scope(tenant: Id, warehouse: Id, location: Id, product: Option<Id>, batch: Option<Id>, systemQty: int)

  datatype CountError =
    | EmptyScope
    | HeaderNotFound
    | NotPlanned
    | NotCancellable
    | LocationNotAvailable
    | CellNotFound
    | WarehouseMismatch
    | CellNotCountable
    | CellAlreadyResolved
    | SameOperatorRound2
    | ShiftLeaderRequired
    | NegativeCount
    | WrongExceptionType
    | NoProduct
    | Workflow(error: A.WorkflowError)
    | Movement(cause: MovementError)

  // ---- Accuracy ----------------------------------------------------------------------------

  function Locations(cells: seq<Cell>): set<Id> {
    set i | 0 <= i < |cells| :: cells[i].location
  }

  predicate AllMatchAt(cells: seq<Cell>, l: Id) {
    forall i :: 0 <= i < |cells| && cells[i].location == l ==> cells[i].FinalQty() == cells[i].systemQty
  }

  function MatchingLocations(cells: seq<Cell>): set<Id> {
    set l | l in Locations(cells) && AllMatchAt(cells, l)
  }

  function Divergence(c: Cell): nat {
    if c.FinalQty() < c.systemQty then c.systemQty - c.FinalQty() else c.FinalQty() - c.systemQty
  }

  function Divergences(cells: seq<Cell>): seq<int> {
    seq(|cells|, i requires 0 <= i < |cells| => Divergence(cells[i]))
  }

  function SystemQtys(cells: seq<Cell>): seq<int> {
    seq(|cells|, i requires 0 <= i < |cells| => cells[i].systemQty)
  }

  function AccuracyOf(cells: seq<Cell>): Accuracy {
    var total, system := |Locations(cells)|, Sum(SystemQtys(cells));
    Accuracy(
      if total > 0 then |MatchingLocations(cells)| as real / total as real else 1.0,
      if system > 0 then 1.0 - Sum(Divergences(cells)) as real / system as real else 1.0)
  }

  lemma SubsetCardinality(a: set<Id>, b: set<Id>)
    requires a <= b
    ensures |a| <= |b| && (|a| == |b| <==> a == b)
  {
    assert b == a + (b - a);
    assert |b| == |a| + |b - a|;
  }

  lemma Ratio(a: nat, b: nat)
    requires a <= b && b > 0
    ensures 0.0 <= a as real / b as real <= 1.0
    ensures a as real / b as real == 1.0 <==> a == b
  {
    QuotientOrder(a as real, b as real);
  }

  lemma QuotientOrder(x: real, y: real)
    requires y > 0.0
    ensures x / y >= 0.0 <==> x >= 0.0
    ensures x / y <= 1.0 <==> x <= y
    ensures x / y == 1.0 <==> x == y
  {
    var q := x / y;
    assert q * y == x;
    if q < 0.0 {
      assert q * y < 0.0;
    } else {
      assert q * y >= 0.0;
    }
    if q < 1.0 {
      assert (1.0 - q) * y > 0.0;
    } else if q > 1.0 {
      assert (q - 1.0) * y > 0.0;
    }
  }

  /** Location accuracy is a proportion, and complete exactly when no location diverges. */
  lemma LocationAccuracyIsAProportion(cells: seq<Cell>)
    ensures var a := AccuracyOf(cells).byLocation;
            && 0.0 <= a <= 1.0
            && (a == 1.0 <==> forall i :: 0 <= i < |cells| ==> cells[i].FinalQty() == cells[i].systemQty)
  {
    var all, matching := Locations(cells), MatchingLocations(cells);
    SubsetCardinality(matching, all);
    if |all| > 0 {
      Ratio(|matching|, |all|);
    }
    if matching == all {
      forall i | 0 <= i < |cells| ensures cells[i].FinalQty() == cells[i].systemQty {
        assert cells[i].location in all;
        assert AllMatchAt(cells, cells[i].location);
      }
    }
    if forall i :: 0 <= i < |cells| ==> cells[i].FinalQty() == cells[i].systemQty {
      assert matching == all;
    }
  }

  lemma {:induction false} SumOfNats(xs: seq<int>)
    requires forall i :: 0 <= i < |xs| ==> xs[i] >= 0
    ensures Sum(xs) >= 0
    ensures Sum(xs) == 0 <==> forall i :: 0 <= i < |xs| ==> xs[i] == 0
  {
    if xs != [] {
      SumOfNats(xs[1..]);
      if Sum(xs) == 0 {
        forall i | 0 <= i < |xs| ensures xs[i] == 0 {
          assert i > 0 ==> xs[1..][i - 1] == xs[i];
        }
      }
    }
  }

  lemma Shortfall(d: nat, s: nat)
    requires s > 0
    ensures 1.0 - d as real / s as real <= 1.0
    ensures 1.0 - d as real / s as real == 1.0 <==> d == 0
  {
    QuotientOrder(d as real, s as real);
    if d > 0 {
      var q := d as real / s as real;
      assert q * s as real == d as real;
    }
  }

  /** Quantity accuracy never exceeds one, and reaches it exactly when no cell diverges or the system held nothing. */
  lemma QuantityAccuracyIsAtMostOne(cells: seq<Cell>)
    requires forall i :: 0 <= i < |cells| ==> cells[i].systemQty >= 0
    ensures var a := AccuracyOf(cells).byQuantity;
            && a <= 1.0
            && (a == 1.0 <==> (forall i :: 0 <= i < |cells| ==> cells[i].FinalQty() == cells[i].systemQty)
                              || (forall i :: 0 <= i < |cells| ==> cells[i].systemQty == 0))
  {
    var d, s := Divergences(cells), SystemQtys(cells);
    SumOfNats(d);
    SumOfNats(s);
    if Sum(s) > 0 {
      Shortfall(Sum(d), Sum(s));
    }
    NoDivergence(cells);
    NothingHeld(cells);
  }

  lemma NoDivergence(cells: seq<Cell>)
    ensures (forall i :: 0 <= i < |Divergences(cells)| ==> Divergences(cells)[i] == 0)
            <==> forall i :: 0 <= i < |cells| ==> cells[i].FinalQty() == cells[i].systemQty
  {
    if forall i :: 0 <= i < |Divergences(cells)| ==> Divergences(cells)[i] == 0 {
      forall i | 0 <= i < |cells| ensures cells[i].FinalQty() == cells[i].systemQty {
        assert Divergences(cells)[i] == 0;
      }
    }
  }

  lemma NothingHeld(cells: seq<Cell>)
    ensures (forall i :: 0 <= i < |SystemQtys(cells)| ==> SystemQtys(cells)[i] == 0)
            <==> forall i :: 0 <= i < |cells| ==> cells[i].systemQty == 0
  {
    if forall i :: 0 <= i < |SystemQtys(cells)| ==> SystemQtys(cells)[i] == 0 {
      forall i | 0 <= i < |cells| ensures cells[i].systemQty == 0 {
        assert SystemQtys(cells)[i] == 0;
      }
    }
  }

  // ---- What the operations do ---------------------------------------------------------------

  function FreshCell(id: Id, s: Scope, status: CellStatus): Cell {
    Cell(id, s.tenant, s.warehouse, s.location, s.product, s.batch, s.systemQty, status, [], [], None)
  }

  function PlannedCells(firstId: Id, scope: seq<Scope>): seq<Cell> {
    seq(|scope|, i requires 0 <= i < |scope| => FreshCell(firstId + i, scope[i], CellPending))
  }

  function Planned(s: Counts, h: Id, firstId: Id, scope: seq<Scope>): Result<Counts, CountError> {
    if scope == [] then Failure(EmptyScope)
    else Success(s.(headers := s.headers[h := Header(HeaderPlanned, PlannedCells(firstId, scope), None)]))
  }

  function Frozen(locations: map<Id, LocationStatus>, which: set<Id>): map<Id, LocationStatus> {
    map l | l in locations :: if l in which then Inventory else locations[l]
  }

  function AllCounting(cells: seq<Cell>): seq<Cell> {
    seq(|cells|, i requires 0 <= i < |cells| => cells[i].(status := CellCounting))
  }

  function StartedCount(s: Counts, h: Id): Result<Counts, CountError> {
    if h !in s.headers then Failure(HeaderNotFound)
    else if !s.headers[h].status.HeaderPlanned? then Failure(NotPlanned)
    else if exists l :: l in Locations(s.headers[h].cells) && !(l in s.locations && s.locations[l].Active?) then
      Failure(LocationNotAvailable)
    else
      Success(Counts(s.headers[h := s.headers[h].(status := HeaderInProgress, cells := AllCounting(s.headers[h].cells))],
                     Frozen(s.locations, Locations(s.headers[h].cells))))
  }

  function CancelledCount(s: Counts, h: Id): Result<Counts, CountError> {
    if h !in s.headers || !s.headers[h].status.HeaderPlanned? then Failure(NotCancellable)
    else Success(s.(headers := s.headers[h := s.headers[h].(status := HeaderCancelled)]))
  }

  /** A one-cell count, started and frozen in one step, whatever the location was doing. */
  function FrozenSingle(s: Counts, h: Id, cellId: Id, scope: Scope): Counts {
    Counts(s.headers[h := Header(HeaderInProgress, [FreshCell(cellId, scope, CellCounting)], None)],
           s.locations[scope.location := Inventory])
  }

  predicate DoneAt(header: Header, l: Id) {
    forall i :: 0 <= i < |header.cells| && header.cells[i].location == l ==> header.cells[i].status.CellDone?
  }

  predicate AllDone(header: Header) {
    forall i :: 0 <= i < |header.cells| ==> header.cells[i].status.CellDone?
  }

  function LocationReleased(s: Counts, h: Id, l: Id): Counts
    requires h in s.headers
  {
    if DoneAt(s.headers[h], l) then s.(locations := s.locations[l := Active]) else s
  }

  function HeaderClosed(s: Counts, h: Id): Counts
    requires h in s.headers
  {
    if AllDone(s.headers[h]) then
      s.(headers := s.headers[h := s.headers[h].(status := HeaderCompleted, accuracy := Some(AccuracyOf(s.headers[h].cells)))])
    else s
  }

  /** A cell is done: its location is released, and the header closed, when nothing else holds them. */
  function Finished(s: Counts, h: Id, i: nat, c: Cell): Counts
    requires s.Has(h, i)
  {
    HeaderClosed(LocationReleased(s.WithCell(h, i, c.(status := CellDone)), h, c.location), h)
  }

  datatype RoundInput = RoundInput(
    warehouse: Id, qty: int, user: Id, leader: bool, unitCost: Option<int>, now: int, configured: seq<A.Authority>)

  /** Why a round is refused, in the order of the checks. */
  function RoundRefusal(c: Cell, input: RoundInput): Option<CountError> {
    var outcome := c.Outcome();
    if c.warehouse != input.warehouse then Some(WarehouseMismatch)
    else if !c.Countable() then Some(CellNotCountable)
    else if !outcome.AwaitingRound? then Some(CellAlreadyResolved)
    else if outcome.notBy == Some(input.user) then Some(SameOperatorRound2)
    else if outcome.leaderOnly && !input.leader then Some(ShiftLeaderRequired)
    else if input.qty < 0 then Some(NegativeCount)
    else None
  }

  function WithRound(c: Cell, input: RoundInput): Cell
    requires c.Outcome().AwaitingRound?
  {
    c.(rounds := c.rounds + [Round(c.Outcome().next, input.qty, input.user, input.leader)])
  }

  function Abs(n: int): nat {
    if n < 0 then -n else n
  }

  function AdjustmentRequest(c: Cell, input: RoundInput, divergence: int): A.CreateInput {
    A.CreateInput(ADJUSTMENT_KIND, input.warehouse, c.id, Some(Abs(divergence)),
                  if input.unitCost.None? || input.unitCost.value == 0 then None else Some(Abs(divergence) * input.unitCost.value),
                  true, input.user, input.now)
  }

  /** The tables after a round whose divergence, if any, opens the exception `e`. */
  function RoundSubmitted(s: Counts, h: Id, i: nat, input: RoundInput, e: Id): Counts
    requires s.Has(h, i) && RoundRefusal(s.Cell(h, i), input).None?
  {
    var c := WithRound(s.Cell(h, i), input);
    match c.Outcome()
    case AwaitingRound(_, _, _) => s.WithCell(h, i, c.(status := CellCounting))
    case Matches => Finished(s, h, i, c)
    case Diverges(_) =>
      var t := s.WithCell(h, i, c.(status := CellAdjusting, exception := Some(e)));
      if t.headers[h].status.HeaderInProgress? then t.(headers := t.headers[h := t.headers[h].(status := HeaderAdjusting)]) else t
  }

  /** The adjustment as the deciding call posts it: in the warehouse that call names. */
  function AdjustmentMovement(c: Cell, e: Id, at: Id): Movement
    requires c.product.Some? && c.rounds != []
  {
    var divergence := c.FinalQty() - c.systemQty;
    var up := divergence > 0;
    StockLedger.Movement.Movement(
      c.tenant, at, None, if up then AjusteInventarioPos else AjusteInventarioNeg,
      c.product.value, c.batch, Abs(divergence),
      if up then None else Some(c.location), None, if up then Some(c.location) else None, None,
      None, None, Some(c.id), None, Some(e), false)
  }

  datatype Effects = Effects(counts: Counts, stock: Stock)

  /** The second transaction of a decision: post the adjustment, or open a fresh cycle. */
  function AdjustmentDecided(s: Counts, stock: Stock, h: Id, i: nat, e: Id, at: Id, approved: bool): Result<Effects, CountError>
    requires s.Has(h, i)
  {
    var c := s.Cell(h, i);
    if !approved then
      Success(Effects(s.WithCell(h, i, c.(status := CellPending, exception := None, past := c.past + [c.rounds], rounds := [])), stock))
    else if c.product.None? || c.rounds == [] then Failure(NoProduct)
    else
      match Applied(stock, AdjustmentMovement(c, e, at))
      case Failure(error) => Failure(CountError.Movement(error))
      case Success(moved) => Success(Effects(Finished(s, h, i, c), moved))
  }

  // ---- The services ------------------------------------------------------------------------

  datatype RoundResult = Awaiting(next: nat) | Completed | AdjustmentPending(exception: Id, divergence: int)

  /** Exception `e` asks for the approval of a divergence: of so much, valued at the unit cost if there is one. */
  ghost predicate AsksFor(e: A.Exception, c: Cell, input: RoundInput, amount: int) {
    var n := if amount < 0 then 0 - amount else amount;
    A.StartsAs(e, input.configured, A.CreateInput(
      ADJUSTMENT_KIND, input.warehouse, c.id, Some(n),
      if input.unitCost.None? || input.unitCost.value == 0 then None else Some(n * input.unitCost.value),
      true, input.user, input.now))
  }

  class InventoryService {
    const workflow: A.ExceptionService
    const stock: StockDatabase
    var headers: map<Id, Header>
    var locations: map<Id, LocationStatus>
    var operations: map<Id, RoundResult>

    constructor (workflow: A.ExceptionService, stock: StockDatabase, locations: map<Id, LocationStatus>)
      ensures this.workflow == workflow && this.stock == stock && State() == Counts(map[], locations) && operations == map[]
    {
      this.workflow := workflow;
      this.stock := stock;
      this.headers := map[];
      this.locations := locations;
      this.operations := map[];
    }

    function State(): Counts
      reads this
    {
      Counts(headers, locations)
    }

    method Plan(h: Id, firstId: Id, scope: seq<Scope>) returns (r: Result<nat, CountError>)
      modifies this`headers
      ensures r.Success? == Planned(old(State()), h, firstId, scope).Success?
      ensures r.Success? ==> State() == Planned(old(State()), h, firstId, scope).value && r.value == |scope|
      ensures r.Failure? ==> State() == old(State()) && r.error == EmptyScope
      ensures r.Success? <==> scope != []
      ensures r.Success? ==>
        && locations == old(locations) && headers.Keys == old(headers).Keys + {h}
        && (forall k :: k in headers && k != h ==> headers[k] == old(headers)[k])
        && headers[h].status == HeaderPlanned && headers[h].accuracy == None && |headers[h].cells| == |scope|
        && forall j :: 0 <= j < |scope| ==>
             headers[h].cells[j] == Cell.Cell(firstId + j, scope[j].tenant, scope[j].warehouse, scope[j].location, scope[j].product,
                                              scope[j].batch, scope[j].systemQty, CellPending, [], [], None)
    {
      if scope == [] {
        return Failure(EmptyScope);
      }
      var cells: seq<Cell> := [];
      for i := 0 to |scope|
        invariant |cells| == i
        invariant forall j :: 0 <= j < i ==> cells[j] == FreshCell(firstId + j, scope[j], CellPending)
      {
        cells := cells + [FreshCell(firstId + i, scope[i], CellPending)];
      }
      assert cells == PlannedCells(firstId, scope);
      headers := headers[h := Header(HeaderPlanned, cells, None)];
      return Success(|cells|);
    }

    method Start(h: Id) returns (r: Result<Header, CountError>)
      modifies this`headers, this`locations
      ensures r.Success? == StartedCount(old(State()), h).Success?
      ensures r.Success? ==> State() == StartedCount(old(State()), h).value && r.value == headers[h]
      ensures r.Failure? ==> State() == old(State()) && r.error == StartedCount(old(State()), h).error
      ensures r == Failure(HeaderNotFound) <==> h !in old(headers)
      ensures r == Failure(NotPlanned) <==> h in old(headers) && old(headers)[h].status != HeaderPlanned
    {
      if h !in headers {
        return Failure(HeaderNotFound);
      }
      var header := headers[h];
      if !header.status.HeaderPlanned? {
        return Failure(NotPlanned);
      }
      var wanted := Locations(header.cells);
      if exists l :: l in wanted && !(l in locations && locations[l].Active?) {
        return Failure(LocationNotAvailable);
      }
      locations := Frozen(locations, wanted);
      headers := headers[h := header.(status := HeaderInProgress, cells := AllCounting(header.cells))];
      return Success(headers[h]);
    }

    method Cancel(h: Id) returns (r: Result<Header, CountError>)
      modifies this`headers
      ensures r.Success? == CancelledCount(old(State()), h).Success?
      ensures State() == if r.Success? then CancelledCount(old(State()), h).value else old(State())
      ensures r.Success? <==> h in old(headers) && old(headers)[h].status == HeaderPlanned
      ensures r.Success? ==> headers == old(headers)[h := old(headers)[h].(status := HeaderCancelled)]
      ensures r.Failure? ==> r.error == NotCancellable && headers == old(headers)
    {
      if h !in headers || !headers[h].status.HeaderPlanned? {
        return Failure(NotCancellable);
      }
      headers := headers[h := headers[h].(status := HeaderCancelled)];
      return Success(headers[h]);
    }

    method CreateAndFreezeSingleLocation(h: Id, cellId: Id, scope: Scope)
      modifies this`headers, this`locations
      ensures State() == FrozenSingle(old(State()), h, cellId, scope)
      ensures headers == old(headers)[h := Header(
        HeaderInProgress,
        [Cell.Cell(cellId, scope.tenant, scope.warehouse, scope.location, scope.product, scope.batch, scope.systemQty,
                   CellCounting, [], [], None)],
        None)]
      ensures locations == old(locations)[scope.location := Inventory]
    {
      headers := headers[h := Header(HeaderInProgress, [FreshCell(cellId, scope, CellCounting)], None)];
      locations := locations[scope.location := Inventory];
    }

    method SetCell(h: Id, i: nat, c: Cell)
      requires State().Has(h, i)
      modifies this`headers
      ensures State() == old(State()).WithCell(h, i, c)
    {
      headers := headers[h := headers[h].(cells := headers[h].cells[i := c])];
    }

    method ReleaseLocationIfDone(h: Id, l: Id)
      requires h in headers
      modifies this`locations
      ensures State() == LocationReleased(old(State()), h, l)
    {
      if forall i :: 0 <= i < |headers[h].cells| && headers[h].cells[i].location == l ==> headers[h].cells[i].status.CellDone? {
        locations := locations[l := Active];
      }
    }

    method CompleteHeaderIfDone(h: Id)
      requires h in headers
      modifies this`headers
      ensures State() == HeaderClosed(old(State()), h)
    {
      if exists i :: 0 <= i < |headers[h].cells| && !headers[h].cells[i].status.CellDone? {
        return;
      }
      headers := headers[h := headers[h].(status := HeaderCompleted, accuracy := Some(AccuracyOf(headers[h].cells)))];
    }

    /**
     Registers a round. An operation that is already recorded is answered from its record and does
     nothing; a new one is recorded together with its effect, and only then.
     */
    method SubmitRound(h: Id, i: nat, input: RoundInput, operation: Option<Id>) returns (r: Result<RoundResult, CountError>, replay: bool)
      modifies this, workflow
      ensures replay <==> operation.Some? && operation.value in old(operations)
      ensures replay ==> r == Success(old(operations)[operation.value])
      ensures replay || r.Failure? ==>
        State() == old(State()) && workflow.exceptions == old(workflow.exceptions) && operations == old(operations)
      ensures !replay ==> (r.Failure? <==>
        || !old(State()).Has(h, i)
        || RoundRefusal(old(State()).Cell(h, i), input).Some?
        || var c := WithRound(old(State()).Cell(h, i), input);
           c.Outcome().Diverges? && A.Created(workflow.types, input.configured, AdjustmentRequest(c, input, c.Outcome().amount)).Failure?)
      ensures !replay && !old(State()).Has(h, i) ==> r == Failure(CellNotFound)
      ensures !replay && old(State()).Has(h, i) && RoundRefusal(old(State()).Cell(h, i), input).Some? ==>
        r == Failure(RoundRefusal(old(State()).Cell(h, i), input).value)
      ensures !replay && old(State()).Has(h, i) && RoundRefusal(old(State()).Cell(h, i), input).None? && r.Failure? ==>
        r.error.Workflow?
      ensures !replay && r.Success? ==>
        && operations == (if operation.Some? then old(operations)[operation.value := r.value] else old(operations))
        && State() == RoundSubmitted(old(State()), h, i, input, old(workflow.nextId))
        && var c := WithRound(old(State()).Cell(h, i), input);
        && match c.Outcome()
           case AwaitingRound(next, _, _) => r.value == Awaiting(next) && workflow.exceptions == old(workflow.exceptions)
           case Matches => r.value == Completed && workflow.exceptions == old(workflow.exceptions)
           case Diverges(amount) =>
             && r.value == AdjustmentPending(old(workflow.nextId), amount)
             && old(workflow.nextId) in workflow.exceptions
             && AsksFor(workflow.exceptions[old(workflow.nextId)], c, input, amount)
             && workflow.exceptions == old(workflow.exceptions)[
                  old(workflow.nextId) := A.Created(workflow.types, input.configured, AdjustmentRequest(c, input, amount)).value]
    {
      replay := operation.Some? && operation.value in operations;
      if replay {
        return Success(operations[operation.value]), true;
      }
      r := RegisterRound(h, i, input);
      if r.Success? && operation.Some? {
        operations := operations[operation.value := r.value];
      }
    }

    method RegisterRound(h: Id, i: nat, input: RoundInput) returns (r: Result<RoundResult, CountError>)
      modifies this`headers, this`locations, workflow
      ensures r.Failure? ==> State() == old(State()) && workflow.exceptions == old(workflow.exceptions)
      ensures r.Failure? <==>
        || !old(State()).Has(h, i)
        || RoundRefusal(old(State()).Cell(h, i), input).Some?
        || var c := WithRound(old(State()).Cell(h, i), input);
           c.Outcome().Diverges? && A.Created(workflow.types, input.configured, AdjustmentRequest(c, input, c.Outcome().amount)).Failure?
      ensures !old(State()).Has(h, i) ==> r == Failure(CellNotFound)
      ensures old(State()).Has(h, i) && RoundRefusal(old(State()).Cell(h, i), input).Some? ==>
        r == Failure(RoundRefusal(old(State()).Cell(h, i), input).value)
      ensures old(State()).Has(h, i) && RoundRefusal(old(State()).Cell(h, i), input).None? && r.Failure? ==> r.error.Workflow?
      ensures r.Success? ==>
        && State() == RoundSubmitted(old(State()), h, i, input, old(workflow.nextId))
        && var c := WithRound(old(State()).Cell(h, i), input);
        && match c.Outcome()
           case AwaitingRound(next, _, _) => r.value == Awaiting(next) && workflow.exceptions == old(workflow.exceptions)
           case Matches => r.value == Completed && workflow.exceptions == old(workflow.exceptions)
           case Diverges(amount) =>
             && r.value == AdjustmentPending(old(workflow.nextId), amount)
             && old(workflow.nextId) in workflow.exceptions
             && AsksFor(workflow.exceptions[old(workflow.nextId)], c, input, amount)
             && workflow.exceptions == old(workflow.exceptions)[
                  old(workflow.nextId) := A.Created(workflow.types, input.configured, AdjustmentRequest(c, input, amount)).value]
    {
      if h !in headers || i >= |headers[h].cells| {
        return Failure(CellNotFound);
      }
      var cell := headers[h].cells[i];
      var refusal := RoundRefusal(cell, input);
      if refusal.Some? {
        return Failure(refusal.value);
      }
      var counted := WithRound(cell, input);
      var outcome := EvaluateCountRounds(cell.systemQty, counted.rounds);
      if outcome.AwaitingRound? {
        SetCell(h, i, counted.(status := CellCounting));
        return Success(Awaiting(outcome.next));
      }
      if outcome.Matches? {
        SetCell(h, i, counted.(status := CellDone));
        ReleaseLocationIfDone(h, cell.location);
        CompleteHeaderIfDone(h);
        return Success(Completed);
      }
      var created := workflow.Create(AdjustmentRequest(counted, input, outcome.amount), input.configured);
      if created.Failure? {
        return Failure(Workflow(created.error));
      }
      SetCell(h, i, counted.(status := CellAdjusting, exception := Some(created.value)));
      if headers[h].status.HeaderInProgress? {
        headers := headers[h := headers[h].(status := HeaderAdjusting)];
      }
      return Success(AdjustmentPending(created.value, outcome.amount));
    }

    /**
     The workflow decides first, in a transaction of its own; the effect follows in a second one. The
     warehouse `at` is the caller's; nothing compares it with the cell's.
     */
    method DecideAdjustment(e: Id, at: Id, user: Id, verdict: A.Verdict, standing: A.Standing)
      returns (r: Result<Option<CellRef>, CountError>)
      requires forall x :: x in workflow.exceptions ==> workflow.exceptions[x].kind in workflow.types
      modifies this`headers, this`locations, workflow, stock
      ensures r.Failure? || r.value.None? ==> State() == old(State()) && stock.State() == old(stock.State())
      ensures match A.DecidedIn(workflow.types, old(workflow.exceptions), e, user, verdict, standing)
              case Failure(error) => r == Failure(Workflow(error)) && workflow.exceptions == old(workflow.exceptions)
              // The decision is recorded, whatever becomes of its effect.
              case Success(decided) =>
                && workflow.exceptions == old(workflow.exceptions)[e := decided]
                && if decided.kind != ADJUSTMENT_KIND then r == Failure(WrongExceptionType)
                   else if A.Open(decided.status) then r == Success(None)
                   else if forall c: CellRef :: !old(State()).Links(c, e) then r == Failure(CellNotFound)
                   else
                     exists c: CellRef ::
                       && old(State()).Links(c, e)
                       && match AdjustmentDecided(old(State()), old(stock.State()), c.header, c.index, e, at, decided.status.Approved?)
                          case Failure(error) => r == Failure(error)
                          case Success(effects) => r == Success(Some(c)) && effects == Effects(State(), stock.State())
    {
      var decided := workflow.Decide(e, user, verdict, standing);
      if decided.Failure? {
        return Failure(Workflow(decided.error));
      }
      var exception := decided.value;
      if exception.kind != ADJUSTMENT_KIND {
        return Failure(WrongExceptionType);
      }
      if A.Open(exception.status) {
        return Success(None);
      }
      if h, i :| h in headers && 0 <= i < |headers[h].cells| && headers[h].cells[i].exception == Some(e) {
        assert State().Links(CellRef(h, i), e);
        var cell := headers[h].cells[i];
        if exception.status.Rejected? {
          SetCell(h, i, cell.(status := CellPending, exception := None, past := cell.past + [cell.rounds], rounds := []));
          return Success(Some(CellRef(h, i)));
        }
        if cell.product.None? || cell.rounds == [] {
          return Failure(NoProduct);
        }
        var movement := stock.Apply(AdjustmentMovement(cell, e, at));
        if movement.Failure? {
          return Failure(CountError.Movement(movement.error));
        }
        SetCell(h, i, cell.(status := CellDone));
        ReleaseLocationIfDone(h, cell.location);
        CompleteHeaderIfDone(h);
        return Success(Some(CellRef(h, i)));
      }
      return Failure(CellNotFound);
    }
  }

  /** Starting a count freezes every location of its scope, or nothing at all. */
  lemma StartFreezesAllOrNone(s: Counts, h: Id)
    requires h in s.headers && s.headers[h].status.HeaderPlanned?
    ensures var r := StartedCount(s, h);
            var wanted := Locations(s.headers[h].cells);
            && (r.Success? <==> forall l :: l in wanted ==> l in s.locations && s.locations[l].Active?)
            && (r.Success? ==> forall l :: l in s.locations ==>
                  r.value.locations[l] == if l in wanted then Inventory else s.locations[l])
            && (r.Success? ==> r.value.headers[h].Started()
                               && forall i :: 0 <= i < |r.value.headers[h].cells| ==> r.value.headers[h].cells[i].status.CellCounting?)
  {
  }
}
