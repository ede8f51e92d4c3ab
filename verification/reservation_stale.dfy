/** A run in which a recall acts on a reservation already shipped: a unit is promised twice, and a live shipment refused. */
module StaleReservations {
  import opened Common
  import opened Allocation
  import opened ReservationConcurrency

  const TEN: map<RowId, nat> := map[1 := 10]

  const FIVE := Hold(1, 5, Active)

  /** Five units of row 1 reserved in one transaction. */
  predicate ReservesFive(steps: seq<Step>, n: nat) {
    && n + 5 <= |steps|
    && steps[n] == Begin(0) && steps[n + 1] == Lock(0, 1) && steps[n + 2] == Allocate(0, [1], 5)
    && steps[n + 3] == Debit(0) && steps[n + 4] == Commit(0)
  }

  function After(steps: seq<Step>, n: nat): World
    requires n <= |steps|
  {
    Run(Start(TEN), steps[..n])
  }

  lemma AfterGoesOn(steps: seq<Step>, n: nat)
    requires n < |steps|
    ensures After(steps, n + 1) == Next(After(steps, n), steps[n])
  {
    assert steps[..n + 1][..n] == steps[..n];
  }

  // ---- One reservation ---------------------------------------------------------------------

  /** Nothing is open, and only row 1 was ever touched. */
  predicate AtRest(w: World, available: nat) {
    w.available == map[1 := available] && w.locks == map[] && w.txns == map[] && available >= 5 && w.reserved.Keys <= {1}
  }

  /** The same with one transaction that has locked the row. */
  function Reserving(w: World, available: nat, plan: seq<Item>, made: nat): World {
    w.(locks := map[1 := 0], txns := map[0 := Txn(map[1 := available], plan, made)])
  }

  function Reserved(w: World, available: nat): World
    requires available >= 5
  {
    w.(available := map[1 := available - 5], reserved := map[1 := InReserve(w, 1) + 5],
       holds := w.holds[w.nextHold := FIVE], nextHold := w.nextHold + 1)
  }

  lemma FiveAreLocked(steps: seq<Step>, n: nat, available: nat)
    requires ReservesFive(steps, n) && AtRest(After(steps, n), available)
    ensures After(steps, n + 2) == Reserving(After(steps, n), available, [], 0)
  {
    AfterGoesOn(steps, n);
    AfterGoesOn(steps, n + 1);
  }

  lemma FiveAreTaken(w: World, available: nat)
    requires AtRest(w, available)
    ensures Next(Reserving(w, available, [], 0), Allocate(0, [1], 5)) == Reserving(w, available, [Item(1, 5)], 0)
  {
    GreedyTakesFive(Txn(map[1 := available], [], 0), available);
  }

  lemma FiveAreAllocated(steps: seq<Step>, n: nat, w: World, available: nat)
    requires ReservesFive(steps, n) && AtRest(w, available) && After(steps, n + 2) == Reserving(w, available, [], 0)
    ensures After(steps, n + 3) == Reserving(w, available, [Item(1, 5)], 0)
  {
    AfterGoesOn(steps, n + 2);
    FiveAreTaken(w, available);
  }

  lemma GreedyTakesFive(t: Txn, available: nat)
    requires t == Txn(map[1 := available], [], 0) && available >= 5
    ensures Takes(LeftOf(t, [1]), 5) == [5]
    ensures [] + PlanOf([1], [5]) == [Item(1, 5)]
  {
    assert LeftOf(t, [1]) == [available];
    assert [available][1..] == [] && [1][1..] == [] && [5][1..] == [];
  }

  lemma FiveAreVisible(w: World, available: nat)
    requires AtRest(w, available)
    ensures Next(Reserving(w, available, [Item(1, 5)], 0), Debit(0)) == Reserving(w, available, [Item(1, 5)], 1)
  {
    var u := Reserving(w, available, [Item(1, 5)], 0);
    assert [Item(1, 5)][..0] == [];
    assert Visible(u, u.txns[0], 1) == available;
  }

  lemma FiveAreDebited(steps: seq<Step>, n: nat, w: World, available: nat)
    requires ReservesFive(steps, n) && AtRest(w, available) && After(steps, n + 3) == Reserving(w, available, [Item(1, 5)], 0)
    ensures After(steps, n + 4) == Reserving(w, available, [Item(1, 5)], 1)
  {
    AfterGoesOn(steps, n + 3);
    FiveAreVisible(w, available);
  }

  lemma OneHold(holds: map<Id, Hold>, first: Id)
    ensures AddHolds(holds, [Item(1, 5)], first) == holds[first := FIVE]
  {
    assert [Item(1, 5)][..0] == [];
    assert AddHolds(holds, [], first) == holds;
  }

  lemma FiveAreCommitted(w: World, available: nat, w': World)
    requires AtRest(w, available) && w' == Next(Reserving(w, available, [Item(1, 5)], 1), Commit(0))
    ensures w' == Reserved(w, available)
  {
    var u := Reserving(w, available, [Item(1, 5)], 1);
    PlannedOnOne(Item(1, 5), 1);
    CommitMoves(u, 0, 1, w');
    OneHold(w.holds, w.nextHold);
    assert w'.available.Keys == {1} && w'.reserved.Keys == {1};
    assert w'.available == map[1 := available - 5];
    assert w'.reserved == map[1 := InReserve(w, 1) + 5];
    assert w'.locks == map[] && w'.txns == map[] && w'.holds == w.holds[w.nextHold := FIVE];
  }

  lemma FiveAreReserved(steps: seq<Step>, n: nat, w: World, available: nat)
    requires ReservesFive(steps, n) && After(steps, n) == w && AtRest(w, available)
    ensures After(steps, n + 5) == Reserved(w, available)
  {
    FiveAreLocked(steps, n, available);
    FiveAreAllocated(steps, n, w, available);
    FiveAreDebited(steps, n, w, available);
    AfterGoesOn(steps, n + 4);
    FiveAreCommitted(w, available, After(steps, n + 5));
  }

  // ---- The run -----------------------------------------------------------------------------

  /**
   Two reservations of five exhaust a row of ten. A recall and a shipment both read the first; the
   shipment ships it, the recall then gives it back, and the five units are reserved once more. Both
   live reservations are shipped in turn.
   */
  predicate ShippedAndRecalled(steps: seq<Step>) {
    && |steps| == 23
    && ReservesFive(steps, 0) && ReservesFive(steps, 5)
    && steps[10] == ReadHold(0, 0) && steps[11] == ReadHold(1, 0) && steps[12] == Act(1, Consume) && steps[13] == Act(0, Cancel)
    && ReservesFive(steps, 14)
    && steps[19] == ReadHold(2, 1) && steps[20] == Act(2, Consume) && steps[21] == ReadHold(3, 2) && steps[22] == Act(3, Consume)
  }

  /** Nothing open: the one row, its reservations, and what was read of them. */
  function Scene(available: nat, reserved: int, gone: map<RowId, int>, holds: map<Id, Hold>, next: Id, tickets: map<Id, Ticket>): World {
    World(map[1 := available], map[1 := reserved], gone, holds, next, map[], map[], tickets, map[], false)
  }

  lemma SceneReads(w: World, ticket: Id, hold: Id)
    requires ticket !in w.tickets && hold in w.holds
    ensures Next(w, ReadHold(ticket, hold)) == w.(tickets := w.tickets[ticket := Ticket(hold, w.holds[hold])])
  {
  }

  lemma SceneShips(w: World, ticket: Id)
    requires ticket in w.tickets && w.tickets[ticket].hold in w.holds && w.tickets[ticket].read == FIVE
    requires w.locks == map[] && InReserve(w, 1) >= 5
    ensures var t := w.tickets[ticket];
            Next(w, Act(ticket, Consume)) ==
              w.(available := w.available[1 := Available(w, 1)], reserved := w.reserved[1 := InReserve(w, 1) - 5], gone := w.gone[1 := Gone(w, 1) + 5],
                 holds := w.holds[t.hold := w.holds[t.hold].(status := Consumed)], tickets := w.tickets - {ticket})
  {
  }

  lemma SceneRecalls(w: World, ticket: Id)
    requires ticket in w.tickets && w.tickets[ticket].hold in w.holds && w.tickets[ticket].read == FIVE
    requires w.locks == map[] && InReserve(w, 1) >= 5
    ensures var t := w.tickets[ticket];
            Next(w, Act(ticket, Cancel)) ==
              w.(available := w.available[1 := Available(w, 1) + 5], reserved := w.reserved[1 := InReserve(w, 1) - 5], gone := w.gone[1 := Gone(w, 1)],
                 holds := w.holds[t.hold := w.holds[t.hold].(status := Released)], tickets := w.tickets - {ticket})
  {
  }

  lemma RowIsExhausted(steps: seq<Step>)
    requires ShippedAndRecalled(steps)
    ensures After(steps, 10) == Scene(0, 10, map[], map[0 := FIVE, 1 := FIVE], 2, map[])
  {
    assert steps[..0] == [];
    FiveAreReserved(steps, 0, Start(TEN), 10);
    assert After(steps, 5) == Scene(5, 5, map[], map[0 := FIVE], 1, map[]);
    FiveAreReserved(steps, 5, After(steps, 5), 5);
    assert map[0 := FIVE][1 := FIVE] == map[0 := FIVE, 1 := FIVE];
  }

  const FIRST := Ticket(0, FIVE)

  lemma FirstIsReadTwice(steps: seq<Step>)
    requires ShippedAndRecalled(steps)
    ensures After(steps, 12) == Scene(0, 10, map[], map[0 := FIVE, 1 := FIVE], 2, map[0 := FIRST, 1 := FIRST])
  {
    RowIsExhausted(steps);
    AfterGoesOn(steps, 10);
    SceneReads(After(steps, 10), 0, 0);
    AfterGoesOn(steps, 11);
    SceneReads(After(steps, 11), 1, 0);
    assert map[0 := FIRST][1 := FIRST] == map[0 := FIRST, 1 := FIRST];
  }

  lemma FirstIsShipped(steps: seq<Step>)
    requires ShippedAndRecalled(steps)
    ensures After(steps, 13) == Scene(0, 5, map[1 := 5], map[0 := Hold(1, 5, Consumed), 1 := FIVE], 2, map[0 := FIRST])
  {
    FirstIsReadTwice(steps);
    AfterGoesOn(steps, 12);
    SceneShips(After(steps, 12), 1);
    assert map[0 := FIVE, 1 := FIVE][0 := Hold(1, 5, Consumed)] == map[0 := Hold(1, 5, Consumed), 1 := FIVE];
    assert map[0 := FIRST, 1 := FIRST] - {1} == map[0 := FIRST];
  }

  const RECALLED := Hold(1, 5, Released)

  lemma FirstIsRecalled(steps: seq<Step>)
    requires ShippedAndRecalled(steps)
    ensures After(steps, 14) == Scene(5, 0, map[1 := 5], map[0 := RECALLED, 1 := FIVE], 2, map[])
  {
    FirstIsShipped(steps);
    AfterGoesOn(steps, 13);
    SceneRecalls(After(steps, 13), 0);
    assert map[0 := Hold(1, 5, Consumed), 1 := FIVE][0 := RECALLED] == map[0 := RECALLED, 1 := FIVE];
    assert map[0 := FIRST] - {0} == map[];
  }

  lemma RecallIsStale(steps: seq<Step>)
    requires ShippedAndRecalled(steps)
    ensures StaleAt(TEN, steps, 13)
  {
    FirstIsShipped(steps);
  }

  lemma ThirdIsReserved(steps: seq<Step>)
    requires ShippedAndRecalled(steps)
    ensures After(steps, 19) == Scene(0, 5, map[1 := 5], map[0 := RECALLED, 1 := FIVE, 2 := FIVE], 3, map[])
  {
    FirstIsRecalled(steps);
    FiveAreReserved(steps, 14, After(steps, 14), 5);
    assert map[0 := RECALLED, 1 := FIVE][2 := FIVE] == map[0 := RECALLED, 1 := FIVE, 2 := FIVE];
  }

  lemma SumOfThree(holds: map<Id, Hold>, status: HoldStatus)
    requires holds.Keys == {0, 1, 2}
    ensures MapSum(Shares(holds, 1, status)) == Share(holds[0], 1, status) + Share(holds[1], 1, status) + Share(holds[2], 1, status)
  {
    var m := Shares(holds, 1, status);
    MapSumRemove(m, 0);
    MapSumRemove(m - {0}, 1);
    MapSumRemove(m - {0} - {1}, 2);
    assert m - {0} - {1} - {2} == map[];
  }

  /** After nineteen steps ten units are promised of a row that has five left: the recall acted on a stale read. */
  lemma StaleRecallPromisesTwice(steps: seq<Step>)
    requires ShippedAndRecalled(steps)
    ensures StaleAt(TEN, steps, 13)
    ensures var w := After(steps, 19); Promised(w, 1) == 10 && InReserve(w, 1) == 5 && Available(w, 1) == 0
  {
    RecallIsStale(steps);
    ThirdIsReserved(steps);
    SumOfThree(map[0 := RECALLED, 1 := FIVE, 2 := FIVE], Active);
  }

  lemma SecondIsRead(steps: seq<Step>)
    requires ShippedAndRecalled(steps)
    ensures After(steps, 20) == Scene(0, 5, map[1 := 5], map[0 := RECALLED, 1 := FIVE, 2 := FIVE], 3, map[2 := Ticket(1, FIVE)])
  {
    ThirdIsReserved(steps);
    AfterGoesOn(steps, 19);
    SceneReads(After(steps, 19), 2, 1);
  }

  lemma SecondIsShipped(steps: seq<Step>)
    requires ShippedAndRecalled(steps)
    ensures After(steps, 21) == Scene(0, 0, map[1 := 10], map[0 := RECALLED, 1 := Hold(1, 5, Consumed), 2 := FIVE], 3, map[])
  {
    SecondIsRead(steps);
    AfterGoesOn(steps, 20);
    SceneShips(After(steps, 20), 2);
    assert map[0 := RECALLED, 1 := FIVE, 2 := FIVE][1 := Hold(1, 5, Consumed)] == map[0 := RECALLED, 1 := Hold(1, 5, Consumed), 2 := FIVE];
    assert map[2 := Ticket(1, FIVE)] - {2} == map[];
  }

  /** And the last shipment is refused, although its reservation is ACTIVE and just as it was read. */
  lemma LiveShipmentIsRefused(steps: seq<Step>)
    requires ShippedAndRecalled(steps)
    ensures var w := After(steps, 22);
            && Enabled(w, steps[22]) && w.holds[w.tickets[3].hold] == w.tickets[3].read == FIVE
            && !Accepted(w, w.tickets[3], Consume)
  {
    SecondIsShipped(steps);
    AfterGoesOn(steps, 21);
    SceneReads(After(steps, 21), 3, 2);
  }
}
