/**
 Reservations as interleaved transactions: each locks candidate rows, reads them, allocates and debits,
 as often as it has lines to reserve, and finally commits or rolls back. Meanwhile others read
 reservations without a lock and later act on what they read, and other movements touch rows nobody
 has locked.
 */
module ReservationConcurrency {
  import opened Common
  import opened Allocation

  type RowId = Id

  datatype HoldStatus = Active | Released | Consumed

  /** A line of stock_reservation. */
  datatype Hold = Hold(row: RowId, qty: nat, status: HoldStatus)

  /** What may become of a reservation: given back, cut short by picking, shipped, or its shipping reversed. */
  datatype Settlement = Cancel | Shrink(keep: nat) | Consume | Reinstate

  /** A reservation as some call read it, to act on later. */
  datatype Ticket = Ticket(hold: Id, read: Hold)

  /** A planned RESERVA debit. */
  datatype Item = Item(row: RowId, qty: nat)

  /**
   An open transaction: the quantities it read when it locked a row, its debits in the order of its
   allocations, and how many of them it has already made. Nobody else sees those before the commit.
   */
  datatype Txn = Txn(seen: map<RowId, nat>, plan: seq<Item>, made: nat)

  /**
   Committed quantities, committed reservations, row locks, open transactions and reservations read but
   not yet acted on. `gone` keeps account of what was shipped from each row less what was reinstated,
   `external` of what other movements did to its available quantity; `refused` records whether any
   RESERVA debit was ever refused for lack of balance.
   */
  datatype World = World(
    available: map<RowId, nat>, reserved: map<RowId, int>, gone: map<RowId, int>, holds: map<Id, Hold>, nextHold: Id,
    locks: map<RowId, Id>, txns: map<Id, Txn>, tickets: map<Id, Ticket>,
    external: map<RowId, int>, refused: bool)

  datatype Step =
    | Begin(txn: Id)
    | Lock(txn: Id, row: RowId)
    | Allocate(txn: Id, order: seq<RowId>, demand: int)
    | Debit(txn: Id)
    | Commit(txn: Id)
    | Rollback(txn: Id)
    | ReadHold(ticket: Id, hold: Id)
    | Act(ticket: Id, how: Settlement)
    | OtherMovement(row: RowId, change: int)

  function Available(w: World, row: RowId): nat {
    if row in w.available then w.available[row] else 0
  }

  function InReserve(w: World, row: RowId): int {
    if row in w.reserved then w.reserved[row] else 0
  }

  function Gone(w: World, row: RowId): int {
    if row in w.gone then w.gone[row] else 0
  }

  function External(w: World, row: RowId): int {
    if row in w.external then w.external[row] else 0
  }

  function PlannedOn(plan: seq<Item>, row: RowId): nat {
    if plan == [] then 0
    else PlannedOn(plan[..|plan| - 1], row) + (if plan[|plan| - 1].row == row then plan[|plan| - 1].qty else 0)
  }

  /** The greedy plan over the rows, in the order chosen by the policy. */
  function PlanOf(order: seq<RowId>, takes: seq<nat>): seq<Item>
    requires |order| == |takes|
  {
    if order == [] then []
    else (if takes[0] > 0 then [Item(order[0], takes[0])] else []) + PlanOf(order[1..], takes[1..])
  }

  predicate Distinct<T(==)>(xs: seq<T>) {
    forall i, j :: 0 <= i < j < |xs| ==> xs[i] != xs[j]
  }

  /** What a transaction still finds available on the rows it has locked: what it read, less its own debits. */
  function LeftOf(t: Txn, order: seq<RowId>): seq<int>
    requires forall r :: r in order ==> r in t.seen
  {
    seq(|order|, i requires 0 <= i < |order| => t.seen[order[i]] - PlannedOn(t.plan, order[i]))
  }

  function Unlocked(w: World, txn: Id): map<RowId, Id> {
    map r | r in w.locks && w.locks[r] != txn :: w.locks[r]
  }

  function AddHolds(holds: map<Id, Hold>, plan: seq<Item>, first: Id): map<Id, Hold> {
    if plan == [] then holds
    else
      var n := |plan| - 1;
      AddHolds(holds, plan[..n], first)[first + n := Hold(plan[n].row, plan[n].qty, Active)]
  }

  /** The update of a reservation's record: of its status or of its quantity, whatever they are by then. */
  function Written(h: Hold, how: Settlement): Hold {
    match how
    case Cancel => h.(status := Released)
    case Shrink(keep) => h.(qty := keep)
    case Consume => h.(status := Consumed)
    case Reinstate => h.(status := Active)
  }

  /** What moves to the available bucket, to the reserved bucket and out of the warehouse: by what was read. */
  function Moved(read: Hold, how: Settlement): (int, int, int) {
    match how
    case Cancel => (read.qty, 0 - read.qty, 0)
    case Shrink(keep) => (read.qty - keep, keep - read.qty, 0)
    case Consume => (0, 0 - read.qty, read.qty)
    case Reinstate => (0, read.qty, 0 - read.qty)
  }

  /** What a call checks of the reservation it read. */
  predicate CanSettle(read: Hold, how: Settlement) {
    match how
    case Shrink(keep) => read.status.Active? && 0 < keep < read.qty
    case Reinstate => read.status.Consumed?
    case _ => read.status.Active?
  }

  /** All allocated so far has been debited. */
  predicate Idle(w: World, txn: Id) {
    txn in w.txns && w.txns[txn].made == |w.txns[txn].plan|
  }

  predicate Enabled(w: World, s: Step) {
    match s
    case Begin(txn) => txn !in w.txns
    case Lock(txn, row) => Idle(w, txn) && row !in w.locks
    case Allocate(txn, order, demand) =>
      Idle(w, txn) && Distinct(order) && forall r :: r in order ==> r in w.txns[txn].seen
    case Debit(txn) => txn in w.txns && w.txns[txn].made < |w.txns[txn].plan|
    case Commit(txn) => Idle(w, txn)
    case Rollback(txn) => txn in w.txns
    case ReadHold(ticket, hold) => ticket !in w.tickets && hold in w.holds
    // Nothing looks again at the reservation.
    case Act(ticket, how) =>
      ticket in w.tickets && w.tickets[ticket].hold in w.holds && CanSettle(w.tickets[ticket].read, how) && w.tickets[ticket].read.row !in w.locks
    case OtherMovement(row, change) => row !in w.locks && Available(w, row) + change >= 0
  }

  /** The movement of an act finds what it takes in the reserved bucket. */
  predicate Accepted(w: World, t: Ticket, how: Settlement) {
    InReserve(w, t.read.row) + Moved(t.read, how).1 >= 0
  }

  function Acted(w: World, ticket: Id, how: Settlement): World
    requires ticket in w.tickets && w.tickets[ticket].hold in w.holds && CanSettle(w.tickets[ticket].read, how)
  {
    var t := w.tickets[ticket];
    var (back, kept, left) := Moved(t.read, how);
    var row := t.read.row;
    w.(holds := w.holds[t.hold := Written(w.holds[t.hold], how)], available := w.available[row := Available(w, row) + back],
       reserved := w.reserved[row := InReserve(w, row) + kept], gone := w.gone[row := Gone(w, row) + left],
       tickets := w.tickets - {ticket})
  }

  /** What a transaction sees of a row: the committed quantity less its own debits so far. */
  function Visible(w: World, t: Txn, row: RowId): int {
    Available(w, row) - (if t.made <= |t.plan| then PlannedOn(t.plan[..t.made], row) else 0)
  }

  function Next(w: World, s: Step): World {
    if !Enabled(w, s) then w
    else
      match s
      case Begin(txn) => w.(txns := w.txns[txn := Txn(map[], [], 0)])
      case Lock(txn, row) =>
        var t := w.txns[txn];
        w.(locks := w.locks[row := txn], txns := w.txns[txn := t.(seen := t.seen[row := Available(w, row)])])
      case Allocate(txn, order, demand) =>
        var t := w.txns[txn];
        TakesLength(LeftOf(t, order), demand);
        w.(txns := w.txns[txn := t.(plan := t.plan + PlanOf(order, Takes(LeftOf(t, order), demand)))])
      case Debit(txn) =>
        var t := w.txns[txn];
        var item := t.plan[t.made];
        if Visible(w, t, item.row) < item.qty then w.(refused := true)
        else w.(txns := w.txns[txn := t.(made := t.made + 1)])
      case Commit(txn) =>
        var plan := w.txns[txn].plan;
        w.(available := map r | r in w.available :: Positive(w.available[r] - PlannedOn(plan, r)),
           reserved := map r | r in w.available.Keys + w.reserved.Keys :: InReserve(w, r) + PlannedOn(plan, r),
           holds := AddHolds(w.holds, plan, w.nextHold), nextHold := w.nextHold + |plan|,
           locks := Unlocked(w, txn), txns := w.txns - {txn})
      case Rollback(txn) => w.(locks := Unlocked(w, txn), txns := w.txns - {txn})
      case ReadHold(ticket, hold) => w.(tickets := w.tickets[ticket := Ticket(hold, w.holds[hold])])
      case Act(ticket, how) =>
        if Accepted(w, w.tickets[ticket], how) then Acted(w, ticket, how) else w.(tickets := w.tickets - {ticket})
      case OtherMovement(row, change) =>
        w.(available := w.available[row := Available(w, row) + change], external := w.external[row := External(w, row) + change])
  }

  /** A quantity of a row goes from the reserved bucket elsewhere, or comes back into it; no other row changes. */
  ghost predicate Shifts(w: World, w': World, row: RowId, available: int, reserved: int, gone: int) {
    forall r: RowId ::
      && Available(w', r) == Available(w, r) + (if r == row then available else 0)
      && InReserve(w', r) == InReserve(w, r) + (if r == row then reserved else 0)
      && Gone(w', r) == Gone(w, r) + (if r == row then gone else 0)
  }

  /** A call may settle an active reservation, cutting it only to less than it is, and reinstate a consumed one. */
  predicate Settles(read: Hold, how: Settlement) {
    match how
    case Cancel => read.status == Active
    case Shrink(keep) => read.status == Active && 0 < keep < read.qty
    case Consume => read.status == Active
    case Reinstate => read.status == Consumed
  }

  /** An act is possible on what was read, and on a row that nobody has locked; otherwise nothing happens. */
  lemma ActsWhen(w: World, ticket: Id, how: Settlement)
    ensures Enabled(w, Act(ticket, how)) <==>
            && ticket in w.tickets && w.tickets[ticket].hold in w.holds
            && Settles(w.tickets[ticket].read, how) && w.tickets[ticket].read.row !in w.locks
    ensures !Enabled(w, Act(ticket, how)) ==> Next(w, Act(ticket, how)) == w
  {
  }

  /** What an act gives back to the available stock. */
  function GivenBack(read: Hold, how: Settlement): int {
    match how
    case Cancel => read.qty
    case Shrink(keep) => read.qty - keep
    case _ => 0
  }

  /** What an act takes out of the warehouse. */
  function TakenOut(read: Hold, how: Settlement): int {
    match how
    case Consume => read.qty
    case Reinstate => 0 - read.qty
    case _ => 0
  }

  /** The record after an act, whatever it says by now. */
  predicate Rewrites(now: Hold, how: Settlement, after: Hold) {
    && after.row == now.row
    && after.qty == (if how.Shrink? then how.keep else now.qty)
    && after.status == match how
                       case Cancel => Released
                       case Shrink(_) => now.status
                       case Consume => Consumed
                       case Reinstate => Active
  }

  /**
   Without enough in reserve an act moves nothing and changes no record. Otherwise the reserved bucket loses what is
   given back and what is taken out, and the record is rewritten.
   */
  lemma ActsExactly(w: World, ticket: Id, how: Settlement)
    requires Enabled(w, Act(ticket, how))
    ensures var w' := Next(w, Act(ticket, how));
            var read, id := w.tickets[ticket].read, w.tickets[ticket].hold;
            var back, out := GivenBack(read, how), TakenOut(read, how);
            && w'.tickets == w.tickets - {ticket}
            && if InReserve(w, read.row) < back + out then w'.holds == w.holds && Shifts(w, w', read.row, 0, 0, 0)
               else
                 && Shifts(w, w', read.row, back, 0 - back - out, out)
                 && id in w'.holds && Rewrites(w.holds[id], how, w'.holds[id]) && w'.holds == w.holds[id := w'.holds[id]]
  {
    var read := w.tickets[ticket].read;
    MovesWhatWasRead(read, how);
    if Accepted(w, w.tickets[ticket], how) {
      ActedMoves(w, ticket, how, Next(w, Act(ticket, how)));
    }
  }

  lemma MovesWhatWasRead(read: Hold, how: Settlement)
    requires CanSettle(read, how)
    ensures Moved(read, how) == (GivenBack(read, how), 0 - GivenBack(read, how) - TakenOut(read, how), TakenOut(read, how))
    ensures GivenBack(read, how) >= 0
    ensures forall now: Hold :: Rewrites(now, how, Written(now, how))
  {
  }

  lemma ActedMoves(w: World, ticket: Id, how: Settlement, w': World)
    requires ticket in w.tickets && w.tickets[ticket].hold in w.holds && CanSettle(w.tickets[ticket].read, how)
    requires w' == Acted(w, ticket, how)
    ensures var read := w.tickets[ticket].read;
            Shifts(w, w', read.row, GivenBack(read, how), 0 - GivenBack(read, how) - TakenOut(read, how), TakenOut(read, how))
  {
    var read := w.tickets[ticket].read;
    MovesWhatWasRead(read, how);
    ShiftsByUpdate(w, w', read.row, GivenBack(read, how), 0 - GivenBack(read, how) - TakenOut(read, how), TakenOut(read, how));
  }

  lemma ShiftsByUpdate(w: World, w': World, row: RowId, available: int, reserved: int, gone: int)
    requires Available(w, row) + available >= 0
    requires w'.available == w.available[row := Available(w, row) + available]
    requires w'.reserved == w.reserved[row := InReserve(w, row) + reserved]
    requires w'.gone == w.gone[row := Gone(w, row) + gone]
    ensures Shifts(w, w', row, available, reserved, gone)
  {
  }

  function Start(available: map<RowId, nat>): World {
    World(available, map[], map[], map[], 0, map[], map[], map[], map[], false)
  }

  function Run(w: World, steps: seq<Step>): World {
    if steps == [] then w else Next(Run(w, steps[..|steps| - 1]), steps[|steps| - 1])
  }

  function Share(h: Hold, row: RowId, status: HoldStatus): nat {
    if h.row == row && h.status == status then h.qty else 0
  }

  function Shares(holds: map<Id, Hold>, row: RowId, status: HoldStatus): map<Id, int> {
    map i | i in holds :: Share(holds[i], row, status)
  }

  /** The sum of the ACTIVE reservations of a row. */
  ghost function Promised(w: World, row: RowId): int {
    MapSum(Shares(w.holds, row, Active))
  }

  /** The sum of its CONSUMED reservations. */
  ghost function Shipped(w: World, row: RowId): int {
    MapSum(Shares(w.holds, row, Consumed))
  }

  // ---- Invariant ----------------------------------------------------------------------------

  /** The debits planned so far take from each row at most what was seen there. */
  ghost predicate PlanFits(seen: map<RowId, nat>, plan: seq<Item>) {
    forall row: RowId :: PlannedOn(plan, row) <= if row in seen then seen[row] else 0
  }

  ghost predicate TxnOk(w: World, id: Id, t: Txn) {
    && (forall r :: r in t.seen ==> r in w.locks && w.locks[r] == id && t.seen[r] == Available(w, r))
    && t.made <= |t.plan| && PlanFits(t.seen, t.plan) && TakesSomething(t.plan)
  }

  ghost predicate TakesSomething(plan: seq<Item>) {
    forall i :: 0 <= i < |plan| ==> plan[i].qty > 0
  }

  ghost predicate Numbered(holds: map<Id, Hold>, first: Id) {
    forall i :: i in holds ==> i < first && holds[i].qty > 0
  }

  /** What was read of a reservation is a real one of the same row, if no longer the same. */
  ghost predicate TicketOk(holds: map<Id, Hold>, t: Ticket) {
    t.hold in holds && t.read.row == holds[t.hold].row && t.read.qty > 0
  }

  ghost predicate HoldsOk(w: World) {
    && Numbered(w.holds, w.nextHold)
    && (forall k :: k in w.tickets ==> TicketOk(w.holds, w.tickets[k]))
  }

  /** The stock itself: nothing is lost or made, and no bucket is negative. */
  ghost predicate Conserved(w: World, initial: map<RowId, nat>, row: RowId) {
    && Available(w, row) + InReserve(w, row) + Gone(w, row) == (if row in initial then initial[row] else 0) + External(w, row)
    && InReserve(w, row) >= 0
  }

  ghost predicate Inv(w: World, initial: map<RowId, nat>) {
    && (forall id :: id in w.txns ==> TxnOk(w, id, w.txns[id]))
    && HoldsOk(w) && (forall row: RowId :: Conserved(w, initial, row))
    && !w.refused
  }

  /** The records of reservations agree with the stock of a row. */
  ghost predicate Agrees(w: World, row: RowId) {
    InReserve(w, row) == Promised(w, row) && Gone(w, row) == Shipped(w, row)
  }

  ghost predicate AllAgree(w: World) {
    forall row: RowId :: Agrees(w, row)
  }

  // ---- Plans --------------------------------------------------------------------------------

  lemma {:induction false} PlannedOnConcat(plan: seq<Item>, more: seq<Item>, row: RowId)
    ensures PlannedOn(plan + more, row) == PlannedOn(plan, row) + PlannedOn(more, row)
  {
    if more == [] {
      assert plan + more == plan;
    } else {
      var n := |more| - 1;
      assert (plan + more)[..|plan + more| - 1] == plan + more[..n];
      PlannedOnConcat(plan, more[..n], row);
    }
  }

  lemma PlannedOnOne(item: Item, row: RowId)
    ensures PlannedOn([item], row) == if item.row == row then item.qty else 0
  {
    assert [item][..0] == [];
  }

  /** The part of the demand that the greedy plan takes from one row. */
  lemma {:induction false} PlanTakesOnce(order: seq<RowId>, takes: seq<nat>, row: RowId)
    requires |order| == |takes| && Distinct(order)
    ensures row !in order ==> PlannedOn(PlanOf(order, takes), row) == 0
    ensures forall i :: 0 <= i < |order| && order[i] == row ==> PlannedOn(PlanOf(order, takes), row) == takes[i]
  {
    if order != [] {
      PlanTakesOnce(order[1..], takes[1..], row);
      var head := if takes[0] > 0 then [Item(order[0], takes[0])] else [];
      PlannedOnConcat(head, PlanOf(order[1..], takes[1..]), row);
      PlannedOnOne(Item(order[0], takes[0]), row);
      assert forall i :: 1 <= i < |order| ==> order[i] == order[1..][i - 1] && takes[i] == takes[1..][i - 1];
      assert row in order[1..] ==> row in order;
    }
  }

  /** One more allocation, of what the transaction still finds, fits on top of the earlier ones. */
  lemma GreedyPlanFits(t: Txn, order: seq<RowId>, demand: int)
    requires PlanFits(t.seen, t.plan) && Distinct(order) && forall r :: r in order ==> r in t.seen
    ensures |Takes(LeftOf(t, order), demand)| == |order|
    ensures PlanFits(t.seen, t.plan + PlanOf(order, Takes(LeftOf(t, order), demand)))
  {
    var takes := Takes(LeftOf(t, order), demand);
    TakesLength(LeftOf(t, order), demand);
    TakesAreFeasible(LeftOf(t, order), demand);
    forall row: RowId ensures PlannedOn(t.plan + PlanOf(order, takes), row) <= if row in t.seen then t.seen[row] else 0 {
      PlannedOnConcat(t.plan, PlanOf(order, takes), row);
      PlanTakesOnce(order, takes, row);
      if row in order {
        var i :| 0 <= i < |order| && order[i] == row;
        assert takes[i] <= Positive(LeftOf(t, order)[i]);
      }
    }
  }

  lemma PrefixTakesNoMore(plan: seq<Item>, n: nat, row: RowId)
    requires n < |plan|
    ensures PlannedOn(plan[..n], row) + (if plan[n].row == row then plan[n].qty else 0) <= PlannedOn(plan, row)
  {
    assert plan == plan[..n] + ([plan[n]] + plan[n + 1..]);
    PlannedOnConcat(plan[..n], [plan[n]] + plan[n + 1..], row);
    PlannedOnConcat([plan[n]], plan[n + 1..], row);
    PlannedOnOne(plan[n], row);
  }

  // ---- Reservations and their sums ----------------------------------------------------------

  lemma {:induction false} HoldsAreNumbered(holds: map<Id, Hold>, plan: seq<Item>, first: Id)
    requires Numbered(holds, first) && TakesSomething(plan)
    ensures Numbered(AddHolds(holds, plan, first), first + |plan|)
  {
    if plan != [] {
      HoldsAreNumbered(holds, plan[..|plan| - 1], first);
    }
  }

  lemma {:induction false} HoldsAreKept(holds: map<Id, Hold>, plan: seq<Item>, first: Id, hold: Id)
    requires hold in holds && hold < first
    ensures hold in AddHolds(holds, plan, first) && AddHolds(holds, plan, first)[hold] == holds[hold]
  {
    if plan != [] {
      HoldsAreKept(holds, plan[..|plan| - 1], first, hold);
    }
  }

  /** Writing one reservation changes the sums of its row, and of no other, by its share. */
  lemma HoldWritten(holds: map<Id, Hold>, key: Id, h: Hold, row: RowId, status: HoldStatus)
    ensures MapSum(Shares(holds[key := h], row, status)) ==
            MapSum(Shares(holds, row, status)) - (if key in holds then Share(holds[key], row, status) else 0) + Share(h, row, status)
  {
    assert Shares(holds[key := h], row, status) == Shares(holds, row, status)[key := Share(h, row, status)];
    MapSumUpdate<Id>(Shares(holds, row, status), key, Share(h, row, status));
  }

  /** One more reservation promises its quantity on its own row. */
  lemma OneMoreHold(holds: map<Id, Hold>, key: Id, item: Item, row: RowId)
    requires key !in holds
    ensures var more := holds[key := Hold(item.row, item.qty, Active)];
            && MapSum(Shares(more, row, Active)) == MapSum(Shares(holds, row, Active)) + (if item.row == row then item.qty else 0)
            && MapSum(Shares(more, row, Consumed)) == MapSum(Shares(holds, row, Consumed))
  {
    HoldWritten(holds, key, Hold(item.row, item.qty, Active), row, Active);
    HoldWritten(holds, key, Hold(item.row, item.qty, Active), row, Consumed);
  }

  lemma {:induction false} SumsAfterHolds(holds: map<Id, Hold>, plan: seq<Item>, first: Id, row: RowId)
    requires Numbered(holds, first) && TakesSomething(plan)
    ensures MapSum(Shares(AddHolds(holds, plan, first), row, Active)) == MapSum(Shares(holds, row, Active)) + PlannedOn(plan, row)
    ensures MapSum(Shares(AddHolds(holds, plan, first), row, Consumed)) == MapSum(Shares(holds, row, Consumed))
  {
    if plan != [] {
      var n := |plan| - 1;
      SumsAfterHolds(holds, plan[..n], first, row);
      HoldsAreNumbered(holds, plan[..n], first);
      OneMoreHold(AddHolds(holds, plan[..n], first), first + n, plan[n], row);
    }
  }

  lemma {:induction false} SumOfShares(m: map<Id, int>)
    requires forall i :: i in m ==> m[i] >= 0
    ensures MapSum(m) >= 0
    decreases |m|
  {
    if m != map[] {
      var k :| k in m;
      MapSumRemove(m, k);
      SumOfShares(m - {k});
    }
  }

  /** The sum of the reservations of a row covers each of them. */
  lemma PromiseCovers(holds: map<Id, Hold>, hold: Id, row: RowId, status: HoldStatus)
    requires hold in holds
    ensures Share(holds[hold], row, status) <= MapSum(Shares(holds, row, status))
  {
    MapSumRemove(Shares(holds, row, status), hold);
    SumOfShares(Shares(holds, row, status) - {hold});
  }

  // ---- What holds in every run --------------------------------------------------------------

  /** Steps that leave the stock alone conserve it. */
  lemma SameStock(w: World, w': World, initial: map<RowId, nat>)
    requires Inv(w, initial)
    requires w'.available == w.available && w'.reserved == w.reserved && w'.gone == w.gone && w'.external == w.external
    ensures forall row: RowId :: Conserved(w', initial, row)
  {
    forall row: RowId ensures Conserved(w', initial, row) {
      assert Conserved(w, initial, row);
    }
  }

  /** A transaction is untouched by steps that leave its rows and locks alone. */
  lemma TxnKept(w: World, w': World, id: Id, t: Txn)
    requires TxnOk(w, id, t)
    requires forall r :: r in t.seen ==> r in w'.locks && w'.locks[r] == w.locks[r] && Available(w', r) == Available(w, r)
    ensures TxnOk(w', id, t)
  {
  }

  lemma {:induction false} PlanTakesSomething(order: seq<RowId>, takes: seq<nat>)
    requires |order| == |takes|
    ensures TakesSomething(PlanOf(order, takes))
  {
    if order != [] {
      PlanTakesSomething(order[1..], takes[1..]);
    }
  }

  lemma AllocateKeepsInv(w: World, initial: map<RowId, nat>, txn: Id, order: seq<RowId>, demand: int)
    requires Inv(w, initial) && Enabled(w, Allocate(txn, order, demand))
    ensures Inv(Next(w, Allocate(txn, order, demand)), initial)
  {
    var t, w' := w.txns[txn], Next(w, Allocate(txn, order, demand));
    assert TxnOk(w, txn, t);
    GreedyPlanFits(t, order, demand);
    PlanTakesSomething(order, Takes(LeftOf(t, order), demand));
    SameStock(w, w', initial);
    forall id | id in w'.txns && id != txn ensures TxnOk(w', id, w'.txns[id]) {
      TxnKept(w, w', id, w.txns[id]);
    }
  }

  lemma LockKeepsTxn(w: World, txn: Id, row: RowId, w': World)
    requires Enabled(w, Lock(txn, row)) && w' == Next(w, Lock(txn, row)) && TxnOk(w, txn, w.txns[txn])
    ensures TxnOk(w', txn, w'.txns[txn])
  {
    var t, t' := w.txns[txn], w'.txns[txn];
    assert row !in t.seen;
    forall r: RowId ensures PlannedOn(t.plan, r) <= if r in t'.seen then t'.seen[r] else 0 {
      assert PlannedOn(t.plan, r) <= if r in t.seen then t.seen[r] else 0;
    }
  }

  lemma LockKeepsInv(w: World, initial: map<RowId, nat>, txn: Id, row: RowId)
    requires Inv(w, initial) && Enabled(w, Lock(txn, row))
    ensures Inv(Next(w, Lock(txn, row)), initial)
  {
    var w' := Next(w, Lock(txn, row));
    SameStock(w, w', initial);
    LockKeepsTxn(w, txn, row, w');
    forall id | id in w'.txns && id != txn ensures TxnOk(w', id, w'.txns[id]) {
      TxnKept(w, w', id, w.txns[id]);
    }
  }

  /** A RESERVA debit of a locked row always finds the balance it was allocated from, whatever others act on. */
  lemma DebitIsNeverRefused(w: World, initial: map<RowId, nat>, txn: Id)
    requires Inv(w, initial) && Enabled(w, Debit(txn))
    ensures var t := w.txns[txn];
            var item := t.plan[t.made];
            item.qty <= Visible(w, t, item.row)
  {
    var t := w.txns[txn];
    assert TxnOk(w, txn, t);
    PrefixTakesNoMore(t.plan, t.made, t.plan[t.made].row);
  }

  lemma DebitKeepsInv(w: World, initial: map<RowId, nat>, txn: Id)
    requires Inv(w, initial) && Enabled(w, Debit(txn))
    ensures Inv(Next(w, Debit(txn)), initial)
  {
    DebitIsNeverRefused(w, initial, txn);
    var w' := Next(w, Debit(txn));
    SameStock(w, w', initial);
    forall id | id in w'.txns ensures TxnOk(w', id, w'.txns[id]) {
      assert TxnOk(w, id, w.txns[id]);
    }
  }

  lemma PlanIsCovered(w: World, id: Id, t: Txn, row: RowId)
    requires TxnOk(w, id, t)
    ensures PlannedOn(t.plan, row) <= Available(w, row)
    ensures PlannedOn(t.plan, row) > 0 ==> row in w.available && row in w.locks && w.locks[row] == id
  {
    assert PlannedOn(t.plan, row) <= if row in t.seen then t.seen[row] else 0;
  }

  lemma CommitMoves(w: World, txn: Id, row: RowId, w': World)
    requires Enabled(w, Commit(txn)) && w' == Next(w, Commit(txn))
    requires PlannedOn(w.txns[txn].plan, row) <= Available(w, row)
    ensures Available(w', row) == Available(w, row) - PlannedOn(w.txns[txn].plan, row)
    ensures InReserve(w', row) == InReserve(w, row) + PlannedOn(w.txns[txn].plan, row)
  {
  }

  lemma CommitTakesThePlan(w: World, initial: map<RowId, nat>, txn: Id, row: RowId)
    requires Inv(w, initial) && Enabled(w, Commit(txn))
    ensures var plan, w' := w.txns[txn].plan, Next(w, Commit(txn));
            && Available(w', row) == Available(w, row) - PlannedOn(plan, row)
            && InReserve(w', row) == InReserve(w, row) + PlannedOn(plan, row)
            && (PlannedOn(plan, row) > 0 ==> row in w.locks && w.locks[row] == txn)
  {
    PlanIsCovered(w, txn, w.txns[txn], row);
    CommitMoves(w, txn, row, Next(w, Commit(txn)));
  }

  lemma CommitKeepsTxn(w: World, initial: map<RowId, nat>, txn: Id, id: Id)
    requires Inv(w, initial) && Enabled(w, Commit(txn)) && id in w.txns && id != txn
    ensures TxnOk(Next(w, Commit(txn)), id, w.txns[id])
  {
    assert TxnOk(w, id, w.txns[id]);
    var w' := Next(w, Commit(txn));
    forall r | r in w.txns[id].seen ensures r in w'.locks && w'.locks[r] == w.locks[r] && Available(w', r) == Available(w, r) {
      CommitTakesThePlan(w, initial, txn, r);
    }
    TxnKept(w, w', id, w.txns[id]);
  }

  lemma CommitKeepsHolds(w: World, initial: map<RowId, nat>, txn: Id, w': World)
    requires Inv(w, initial) && Enabled(w, Commit(txn)) && w' == Next(w, Commit(txn))
    ensures HoldsOk(w')
  {
    assert TxnOk(w, txn, w.txns[txn]);
    HoldsAreNumbered(w.holds, w.txns[txn].plan, w.nextHold);
    forall k | k in w'.tickets ensures TicketOk(w'.holds, w'.tickets[k]) {
      assert TicketOk(w.holds, w.tickets[k]);
      HoldsAreKept(w.holds, w.txns[txn].plan, w.nextHold, w.tickets[k].hold);
    }
  }

  lemma CommitKeepsInv(w: World, initial: map<RowId, nat>, txn: Id)
    requires Inv(w, initial) && Enabled(w, Commit(txn))
    ensures Inv(Next(w, Commit(txn)), initial)
  {
    var w' := Next(w, Commit(txn));
    forall row: RowId ensures Conserved(w', initial, row) {
      assert Conserved(w, initial, row);
      CommitTakesThePlan(w, initial, txn, row);
    }
    CommitKeepsHolds(w, initial, txn, w');
    forall id | id in w'.txns ensures TxnOk(w', id, w'.txns[id]) {
      CommitKeepsTxn(w, initial, txn, id);
    }
  }

  /** What an accepted act moves on each row. */
  lemma ActMoves(w: World, ticket: Id, how: Settlement, row: RowId, w': World)
    requires Enabled(w, Act(ticket, how)) && Accepted(w, w.tickets[ticket], how) && w' == Acted(w, ticket, how)
    ensures var t := w.tickets[ticket];
            var (back, kept, left) := Moved(t.read, how);
            && Available(w', row) == Available(w, row) + (if row == t.read.row then back else 0)
            && InReserve(w', row) == InReserve(w, row) + (if row == t.read.row then kept else 0)
            && Gone(w', row) == Gone(w, row) + (if row == t.read.row then left else 0)
            && back + kept + left == 0
  {
  }

  lemma WrittenStaysPositive(h: Hold, read: Hold, how: Settlement)
    requires CanSettle(read, how) && h.qty > 0
    ensures Written(h, how).qty > 0 && Written(h, how).row == h.row
  {
  }

  lemma ActKeepsHolds(w: World, ticket: Id, how: Settlement, w': World)
    requires HoldsOk(w) && Enabled(w, Act(ticket, how)) && w' == Acted(w, ticket, how)
    ensures HoldsOk(w')
  {
    var t := w.tickets[ticket];
    WrittenStaysPositive(w.holds[t.hold], t.read, how);
    forall k | k in w'.tickets ensures TicketOk(w'.holds, w'.tickets[k]) {
      assert TicketOk(w.holds, w.tickets[k]);
    }
  }

  lemma ActConserves(w: World, initial: map<RowId, nat>, ticket: Id, how: Settlement, w': World)
    requires Inv(w, initial) && Enabled(w, Act(ticket, how)) && Accepted(w, w.tickets[ticket], how) && w' == Acted(w, ticket, how)
    ensures forall row: RowId :: Conserved(w', initial, row)
  {
    forall row: RowId ensures Conserved(w', initial, row) {
      assert Conserved(w, initial, row);
      ActMoves(w, ticket, how, row, w');
    }
  }

  lemma ActKeepsInv(w: World, initial: map<RowId, nat>, ticket: Id, how: Settlement, w': World)
    requires Inv(w, initial) && Enabled(w, Act(ticket, how)) && w' == Next(w, Act(ticket, how))
    ensures Inv(w', initial)
  {
    if Accepted(w, w.tickets[ticket], how) {
      ActKeepsHolds(w, ticket, how, w');
      ActConserves(w, initial, ticket, how, w');
    } else {
      SameStock(w, w', initial);
    }
    forall id | id in w'.txns ensures TxnOk(w', id, w'.txns[id]) {
      TxnKept(w, w', id, w.txns[id]);
    }
  }

  lemma OtherMovementKeepsInv(w: World, initial: map<RowId, nat>, row: RowId, change: int)
    requires Inv(w, initial) && Enabled(w, OtherMovement(row, change))
    ensures Inv(Next(w, OtherMovement(row, change)), initial)
  {
    var w' := Next(w, OtherMovement(row, change));
    forall r: RowId ensures Conserved(w', initial, r) {
      assert Conserved(w, initial, r);
    }
    forall id | id in w'.txns ensures TxnOk(w', id, w'.txns[id]) {
      TxnKept(w, w', id, w.txns[id]);
    }
  }

  lemma OtherStepsKeepInv(w: World, initial: map<RowId, nat>, s: Step)
    requires Inv(w, initial) && Enabled(w, s) && (s.Begin? || s.Rollback? || s.ReadHold?)
    ensures Inv(Next(w, s), initial)
  {
    var w' := Next(w, s);
    SameStock(w, w', initial);
    forall row: RowId ensures PlannedOn([], row) == 0 {
    }
    forall id | id in w'.txns && id in w.txns ensures TxnOk(w', id, w'.txns[id]) {
      assert TxnOk(w, id, w.txns[id]);
    }
  }

  lemma NextKeepsInv(w: World, initial: map<RowId, nat>, s: Step)
    requires Inv(w, initial)
    ensures Inv(Next(w, s), initial)
  {
    if Enabled(w, s) {
      match s
      case Lock(txn, row) => LockKeepsInv(w, initial, txn, row);
      case Allocate(txn, order, demand) => AllocateKeepsInv(w, initial, txn, order, demand);
      case Debit(txn) => DebitKeepsInv(w, initial, txn);
      case Commit(txn) => CommitKeepsInv(w, initial, txn);
      case Act(ticket, how) => ActKeepsInv(w, initial, ticket, how, Next(w, s));
      case OtherMovement(row, change) => OtherMovementKeepsInv(w, initial, row, change);
      case Begin(txn) => OtherStepsKeepInv(w, initial, s);
      case Rollback(txn) => OtherStepsKeepInv(w, initial, s);
      case ReadHold(ticket, hold) => OtherStepsKeepInv(w, initial, s);
    }
  }

  lemma {:induction false} InvOfRun(initial: map<RowId, nat>, steps: seq<Step>)
    ensures Inv(Run(Start(initial), steps), initial)
  {
    if steps != [] {
      InvOfRun(initial, steps[..|steps| - 1]);
      NextKeepsInv(Run(Start(initial), steps[..|steps| - 1]), initial, steps[|steps| - 1]);
    }
  }

  /**
   In every interleaving, whatever acts on stale reads: what is available, reserved and gone of a row
   adds up to what was there plus what other movements brought, no bucket is negative, and no RESERVA
   debit is ever refused.
   */
  lemma StockIsConserved(initial: map<RowId, nat>, steps: seq<Step>, row: RowId)
    ensures var w := Run(Start(initial), steps);
            && Available(w, row) + InReserve(w, row) + Gone(w, row) == (if row in initial then initial[row] else 0) + External(w, row)
            && Available(w, row) >= 0 && InReserve(w, row) >= 0 && !w.refused
  {
    InvOfRun(initial, steps);
    assert Conserved(Run(Start(initial), steps), initial, row);
  }

  // ---- Exactly when the records agree with the stock ----------------------------------------

  /** The step acts, with effect, on a reservation that is no longer what was read. */
  predicate ActsOnStale(w: World, s: Step) {
    && s.Act? && Enabled(w, s) && Accepted(w, w.tickets[s.ticket], s.how)
    && w.holds[w.tickets[s.ticket].hold] != w.tickets[s.ticket].read
  }

  /** A settlement moves what its record says exactly when the record is still what was read. */
  lemma SettlementAgrees(h: Hold, read: Hold, how: Settlement)
    requires CanSettle(read, how) && h.row == read.row && h.qty > 0 && read.qty > 0
    ensures var (back, kept, left) := Moved(read, how);
            (&& Share(Written(h, how), h.row, Active) - Share(h, h.row, Active) == kept
             && Share(Written(h, how), h.row, Consumed) - Share(h, h.row, Consumed) == left) <==> h == read
  {
  }

  lemma ActChangesSums(w: World, ticket: Id, how: Settlement, row: RowId, w': World)
    requires Enabled(w, Act(ticket, how)) && w' == Acted(w, ticket, how)
    ensures var h := w.holds[w.tickets[ticket].hold];
            && Promised(w', row) == Promised(w, row) - Share(h, row, Active) + Share(Written(h, how), row, Active)
            && Shipped(w', row) == Shipped(w, row) - Share(h, row, Consumed) + Share(Written(h, how), row, Consumed)
  {
    var t := w.tickets[ticket];
    HoldWritten(w.holds, t.hold, Written(w.holds[t.hold], how), row, Active);
    HoldWritten(w.holds, t.hold, Written(w.holds[t.hold], how), row, Consumed);
  }

  lemma OtherRowsStillAgree(w: World, ticket: Id, how: Settlement, row: RowId, w': World)
    requires HoldsOk(w) && Agrees(w, row) && Enabled(w, Act(ticket, how)) && Accepted(w, w.tickets[ticket], how)
    requires w' == Acted(w, ticket, how) && row != w.tickets[ticket].read.row
    ensures Agrees(w', row)
  {
    assert TicketOk(w.holds, w.tickets[ticket]);
    ActMoves(w, ticket, how, row, w');
    ActChangesSums(w, ticket, how, row, w');
  }

  lemma OwnRowAgreesExactly(w: World, ticket: Id, how: Settlement, w': World)
    requires HoldsOk(w) && Enabled(w, Act(ticket, how)) && Accepted(w, w.tickets[ticket], how)
    requires Agrees(w, w.tickets[ticket].read.row) && w' == Acted(w, ticket, how)
    ensures Agrees(w', w.tickets[ticket].read.row) <==> w.holds[w.tickets[ticket].hold] == w.tickets[ticket].read
  {
    var t := w.tickets[ticket];
    assert TicketOk(w.holds, t);
    SettlementAgrees(w.holds[t.hold], t.read, how);
    ActMoves(w, ticket, how, t.read.row, w');
    ActChangesSums(w, ticket, how, t.read.row, w');
  }

  lemma ActAgreesExactly(w: World, initial: map<RowId, nat>, ticket: Id, how: Settlement, w': World)
    requires Inv(w, initial) && AllAgree(w) && Enabled(w, Act(ticket, how)) && Accepted(w, w.tickets[ticket], how)
    requires w' == Acted(w, ticket, how)
    ensures AllAgree(w') <==> w.holds[w.tickets[ticket].hold] == w.tickets[ticket].read
  {
    var own := w.tickets[ticket].read.row;
    forall row: RowId ensures row != own ==> Agrees(w', row) {
      assert Agrees(w, row);
      if row != own {
        OtherRowsStillAgree(w, ticket, how, row, w');
      }
    }
    assert Agrees(w, own);
    OwnRowAgreesExactly(w, ticket, how, w');
  }

  lemma CommitAgrees(w: World, initial: map<RowId, nat>, txn: Id, w': World)
    requires Inv(w, initial) && AllAgree(w) && Enabled(w, Commit(txn)) && w' == Next(w, Commit(txn))
    ensures AllAgree(w')
  {
    assert TxnOk(w, txn, w.txns[txn]);
    forall row: RowId ensures Agrees(w', row) {
      assert Agrees(w, row);
      CommitTakesThePlan(w, initial, txn, row);
      SumsAfterHolds(w.holds, w.txns[txn].plan, w.nextHold, row);
    }
  }

  lemma SameRecordsAgree(w: World, w': World)
    requires AllAgree(w) && w'.reserved == w.reserved && w'.gone == w.gone && w'.holds == w.holds
    ensures AllAgree(w')
  {
    forall row: RowId ensures Agrees(w', row) {
      assert Agrees(w, row);
    }
  }

  lemma AllocateKeepsRecords(w: World, txn: Id, order: seq<RowId>, demand: int)
    requires Enabled(w, Allocate(txn, order, demand))
    ensures var w' := Next(w, Allocate(txn, order, demand)); w' == w.(txns := w'.txns)
  {
  }

  lemma DebitKeepsRecords(w: World, txn: Id)
    requires Enabled(w, Debit(txn))
    ensures var w' := Next(w, Debit(txn)); w'.reserved == w.reserved && w'.gone == w.gone && w'.holds == w.holds
  {
  }

  /** Only commits and accepted acts touch records, reserved stock or what is gone. */
  lemma OthersKeepRecords(w: World, s: Step, w': World)
    requires Enabled(w, s) && !s.Commit? && (s.Act? ==> !Accepted(w, w.tickets[s.ticket], s.how)) && w' == Next(w, s)
    ensures w'.reserved == w.reserved && w'.gone == w.gone && w'.holds == w.holds
  {
    if s.Allocate? {
      AllocateKeepsRecords(w, s.txn, s.order, s.demand);
    } else if s.Debit? {
      DebitKeepsRecords(w, s.txn);
    }
  }

  /** From a state whose records agree, a step keeps them in agreement if and only if it does not act on a stale read. */
  lemma StepAgreesExactly(w: World, initial: map<RowId, nat>, s: Step, w': World)
    requires Inv(w, initial) && AllAgree(w) && w' == Next(w, s)
    ensures AllAgree(w') <==> !ActsOnStale(w, s)
  {
    if Enabled(w, s) {
      if s.Act? && Accepted(w, w.tickets[s.ticket], s.how) {
        ActAgreesExactly(w, initial, s.ticket, s.how, w');
      } else if s.Commit? {
        CommitAgrees(w, initial, s.txn, w');
      } else {
        OthersKeepRecords(w, s, w');
        SameRecordsAgree(w, w');
      }
    }
  }

  /** The records agree with the stock after `n` steps. */
  ghost predicate AgreesAfter(initial: map<RowId, nat>, steps: seq<Step>, n: nat)
    requires n <= |steps|
  {
    AllAgree(Run(Start(initial), steps[..n]))
  }

  ghost predicate AgreesThroughout(initial: map<RowId, nat>, steps: seq<Step>) {
    forall n: nat :: n <= |steps| ==> AgreesAfter(initial, steps, n)
  }

  predicate StaleAt(initial: map<RowId, nat>, steps: seq<Step>, n: nat)
    requires n < |steps|
  {
    ActsOnStale(Run(Start(initial), steps[..n]), steps[n])
  }

  ghost predicate NeverStale(initial: map<RowId, nat>, steps: seq<Step>) {
    forall n: nat :: n < |steps| ==> !StaleAt(initial, steps, n)
  }

  lemma SameAfter(initial: map<RowId, nat>, steps: seq<Step>, m: nat, n: nat)
    requires n <= m <= |steps|
    ensures AgreesAfter(initial, steps[..m], n) == AgreesAfter(initial, steps, n)
    ensures n < m ==> StaleAt(initial, steps[..m], n) == StaleAt(initial, steps, n)
  {
    assert steps[..m][..n] == steps[..n];
  }

  lemma AgreesInFront(initial: map<RowId, nat>, steps: seq<Step>, m: nat)
    requires |steps| == m + 1
    ensures AgreesThroughout(initial, steps) <==> AgreesThroughout(initial, steps[..m]) && AgreesAfter(initial, steps, m + 1)
  {
    forall n: nat | n <= m ensures AgreesAfter(initial, steps[..m], n) == AgreesAfter(initial, steps, n) {
      SameAfter(initial, steps, m, n);
    }
  }

  lemma NeverStaleInFront(initial: map<RowId, nat>, steps: seq<Step>, m: nat)
    requires |steps| == m + 1
    ensures NeverStale(initial, steps) <==> NeverStale(initial, steps[..m]) && !StaleAt(initial, steps, m)
  {
    forall n: nat | n < m ensures StaleAt(initial, steps[..m], n) == StaleAt(initial, steps, n) {
      SameAfter(initial, steps, m, n);
    }
  }

  lemma StartAgrees(initial: map<RowId, nat>)
    ensures AllAgree(Start(initial))
  {
    forall row: RowId ensures Agrees(Start(initial), row) {
      assert Shares(map[], row, Active) == map[] && Shares(map[], row, Consumed) == map[];
    }
  }

  lemma {:induction false} AgreesAtTheEnd(initial: map<RowId, nat>, steps: seq<Step>)
    ensures AgreesThroughout(initial, steps) ==> AllAgree(Run(Start(initial), steps))
  {
    assert steps[..|steps|] == steps;
    assert AgreesThroughout(initial, steps) ==> AgreesAfter(initial, steps, |steps|);
  }

  /**
   In every interleaving, the records of reservations agree with the stock throughout (the reserved
   bucket of each row is what ACTIVE reservations promise, and what is gone is what CONSUMED ones
   shipped) if and only if nothing acts, with effect, on a reservation that changed since it was read.
   */
  lemma {:induction false} RecordsAgreeExactly(initial: map<RowId, nat>, steps: seq<Step>)
    ensures AgreesThroughout(initial, steps) <==> NeverStale(initial, steps)
  {
    if steps == [] {
      StartAgrees(initial);
      assert steps[..0] == [];
    } else {
      var m := |steps| - 1;
      RecordsAgreeExactly(initial, steps[..m]);
      AgreesInFront(initial, steps, m);
      NeverStaleInFront(initial, steps, m);
      AgreesAtTheEnd(initial, steps[..m]);
      InvOfRun(initial, steps[..m]);
      assert steps[..m + 1] == steps;
      if AgreesThroughout(initial, steps[..m]) {
        StepAgreesExactly(Run(Start(initial), steps[..m]), initial, steps[m], Run(Start(initial), steps));
      }
    }
  }

  /** While the records agree, the reserved bucket covers whatever is acted on and still is what was read. */
  lemma FreshSettlementIsNeverRefused(w: World, initial: map<RowId, nat>, ticket: Id, how: Settlement)
    requires Inv(w, initial) && AllAgree(w) && Enabled(w, Act(ticket, how))
    requires w.holds[w.tickets[ticket].hold] == w.tickets[ticket].read
    ensures Accepted(w, w.tickets[ticket], how)
  {
    var t := w.tickets[ticket];
    assert Agrees(w, t.read.row);
    PromiseCovers(w.holds, t.hold, t.read.row, Active);
    SumOfShares(Shares(w.holds, t.read.row, Active));
  }

  /**
   So in every run that never acts on a stale read, no unit is promised twice: what is available,
   promised and shipped of a row adds up to what was there plus what other movements brought; and
   an act is refused only if it, in turn, is on a stale read.
   */
  lemma NoUnitPromisedTwice(initial: map<RowId, nat>, steps: seq<Step>, row: RowId, s: Step)
    requires NeverStale(initial, steps)
    ensures var w := Run(Start(initial), steps);
            && Available(w, row) + Promised(w, row) + Shipped(w, row) == (if row in initial then initial[row] else 0) + External(w, row)
            && InReserve(w, row) == Promised(w, row) && Promised(w, row) >= 0 && Shipped(w, row) >= 0
            && (s.Act? && Enabled(w, s) && !Accepted(w, w.tickets[s.ticket], s.how) ==>
                  w.holds[w.tickets[s.ticket].hold] != w.tickets[s.ticket].read)
  {
    var w := Run(Start(initial), steps);
    RecordsAgreeExactly(initial, steps);
    AgreesAtTheEnd(initial, steps);
    InvOfRun(initial, steps);
    assert Conserved(w, initial, row) && Agrees(w, row);
    SumOfShares(Shares(w.holds, row, Active));
    SumOfShares(Shares(w.holds, row, Consumed));
    if s.Act? && Enabled(w, s) && w.holds[w.tickets[s.ticket].hold] == w.tickets[s.ticket].read {
      FreshSettlementIsNeverRefused(w, initial, s.ticket, s.how);
    }
  }
}
