# Verification model of the stock engine and its protocols

A Dafny model of the warehouse management system's stock engine and of the protocols around it, with
proofs about whole runs. `dafny verify dfyconfig.toml` checks everything.

**Ledger** (`effects`, `ledger`, `movement_table`, `ledger_replay`, `ledger_pairs`). One service writes the six-bucket
balance table and the append-only movement rows, driven by 18 movement types. The balance table is
modelled column by column: a bucket of a key (tenant, warehouse, product, batch, location, pallet,
with null as an ordinary value) holds a whole number of millionths, and a bucket never written holds
zero. A refused movement changes nothing.

**Selection and reservation** (`text`, `calendar`, `shelf_life`, `policy_order`, `allocation`,
`selection`, `reservation`, `reservation_concurrency`, `reservation_stale`). Exact shelf-life arithmetic,
four policy chains, the accessible-pallet restriction, greedy consumption, and the conversion of
allocations into RESERVA movements under row locks, both as one call and as interleaved transactions that reserve for
several lines under one set of locks, while others read reservations without a lock and later cancel,
cut, ship or reinstate what they read.

**Approval and discard** (`approval`, `discard`). Folded approval limits, exceptions decided in steps
by different people, and the one stock effect that such an exception guards. The decision and its
effect are separate transactions, as in the code, so an effect can be lost; the effect is posted in the
warehouse that the deciding call names.

**Counting** (`counting`, `counting_steps`, `counting_runs`, `counting_limits`, `counting_concurrency`). The decision tree
of blind rounds, the cells of a count, adjustments through the workflow, frozen locations and the closing
of a count; then exactly which steps lose an effect, exactly what the callers have to see to, and when
cells that are finished at the same time release nothing.

**Operation flow** (`operation_flow`). Ordered steps, the single actionable one, midpoint insertion.

**Offline synchronisation** (`replenishment`, `offline_sync`, `offline_sync_runs`, `offline_sync_limits`,
`offline_sync_late`). The idempotent replenishment executor, the server that classifies operations, the
device's queue and task stores, and a step machine in which requests and answers are delayed, lost or
overtaken by resends; then exactly which runs orphan an operation, or apply one after the device was told
otherwise, and when one still can be. One device is followed in detail; other devices and users act on the
server with operation identifiers of their own.

**Event pipeline** (`event_pipeline`, `event_pipeline_runs`, `event_pipeline_limits`). Outbox publisher
and fan-out workers, interleaved and failing anywhere, with the delivery counter and the dead-letter stream.

**Base32** (`base32`, `base32_bits`). Both bit-accumulator loops with 32-bit wrap-around, in the alphabet of section 6
of RFC 4648 without padding.

Code that changes state step by step appears as classes and methods; each is proved against a function
of its inputs or of the old state, and the lemmas are about that function. Runs are sequences of events
over the same functions. What such a function does is also said without it, in terms of buckets, dates, statuses,
rounds or bits alone, chiefly by lemmas whose names end in `Exactly` and by the `ensures` of the methods.

## Hypotheses and findings

These hold of the code as it is. Where a property needs a hypothesis, the lemma states it, and where
the code does not meet a property, a lemma shows how.

- A location move that leaves out a "to" side where the "from" side is given credits a key with a null
  side, but its ledger row names the "from" value. Replaying the ledger rebuilds the balances if and only
  if no accepted movement of a run does so (`LedgerReplay.LedgerRebuildsBalances`).
- A location move that names no origin is a pure credit, so it counts as an entry, not as neutral.
- `Date.UTC` reads the years 0 to 99 as 1900 to 1999, whose first has no leap day. Text order is day order
  for a pair of dates exactly when neither is moved past the other by that
  (`Calendar.TextOrderIsDayOrderExactly`), so for every pair from year 100 on.
- Nobody locks a reservation, and its updates do not look again at what was read. The stock itself is
  conserved whatever happens, and a RESERVA debit is never refused. But the records of reservations agree
  with the stock if and only if nothing acts on a reservation that changed since it was read
  (`ReservationConcurrency.RecordsAgreeExactly`); a recall that overlaps a shipment promises units twice
  (`StaleReservations.StaleRecallPromisesTwice`) and lets a live shipment be refused.
- Folding approval limits takes each maximum separately, although the documentation speaks of exceeding
  all authorities. A configuration meets that rule on all amounts if and only if one authority is at least
  as wide as every other (`Approval.RuleIsMetExactly`).
- The effect of a decided adjustment or discard is posted in the warehouse that the deciding call names;
  nothing compares it with the cell's or the request's. The ledger row is on the cell's or request's own
  key if and only if they are the same; otherwise stock of another warehouse is changed, or the effect is
  refused there and lost (`CountingLimits.GainLandsAtTheCaller`, `Discard.DiscardFollowsTheCaller`).
- Counting stays sound exactly when the callers see to three things the code does not check: no location
  under count is frozen again or deactivated, and a round on a header that has not started settles that
  header's only cell at a place nobody counts (`CountingLimits.DisciplineIsExact`). Elsewhere in the
  repository, adjustment movements name no requirement.
- Adjustments go to the unpalletised key. Stock counted on a pallet is planned from the pallet's row, so
  its approved negative adjustment is refused unless the unpalletised key holds enough; the exception is
  already decided by then, the call makes one attempt only, and the cell, its location and its count stay
  open for ever. An effect is lost exactly when its one attempt is refused, when the deciding call dies
  before it, or when the exception expires or is decided through the general endpoint
  (`CountingLimits.StrandedExactly`). Discards are lost in the same way (`Discard.DiscardLostExactly`).
- Dynamic steps keep completion order equal to sequence order in a run if and only if each was inserted
  before no DONE step (`OperationFlow.RunsCompleteInOrderExactly`); the code's comment says so of its
  caller, the code does not check it.
- Replenishment execution and assignment read their task outside the transaction that changes it; each
  call is one atomic step here, and a finished task is never cancelled.
- Counting calls are atomic steps in `counting_runs` and `counting_limits`. In the code a call locks its own
  cell only. Cells finished at the same time release their location, or close their count, if and only if
  one of the calls looks after all others have committed; otherwise nothing ever does
  (`CountingConcurrency.ReleasedExactly`, `OverlapReleasesNothing`). The exception a round opens is created
  in a transaction of its own; requesting a discard inserts the request, creates its exception and links it
  in three.
- Confirming a task on the device is one step here; in the code the queue record and the task mark are
  two writes, one after the other.
- Reloading the page in the middle of a synchronisation leaves its operations marked as being sent, and
  nothing ever sends them again; nothing else does (`OfflineSyncLimits.OrphanedExactlyByReloads`).
- An operation resolved as rejected may still take effect when a delayed copy of its batch is processed
  later (`OfflineSyncLimits.LateEffectExactly`). It still can if and only if a copy is on its way, its task
  is open and its scan is right (`OfflineSyncLate.MayStillApplyExactly`).
- Progress saved on a task that is closed on the device offers it for execution again, without effect on
  the stock (`OfflineSyncRuns.ReopenedTaskMovesNothing`).
- A delivery-counter lookup that fails, or that finds nothing because another worker has acknowledged
  the entry, counts as a first delivery. An entry is tried at most the retry limit plus once for each
  attempt after such a lookup, and some run reaches that bound (`EventPipelineLimits.BoundIsReached`). An
  event type whose module is `dlq` lands on the dead-letter stream itself and is never fanned out.

## Model

| member | source | states |
|---|---|---|
| StockLedger.StockDatabase.Debit | apps/backend/src/modules/estoque/movement/stock-movement.service.ts:215-235 | a debit succeeds exactly when the bucket holds the quantity, and otherwise touches nothing |
| StockLedger.StockDatabase.Credit | apps/backend/src/modules/estoque/movement/stock-movement.service.ts:237-249 | a credit adds to one bucket, creating the row when missing, and changes no other |
| StockLedger.StockDatabase.InsertMovementRow | apps/backend/src/modules/estoque/movement/stock-movement.service.ts:251-299 | the ledger is append-only and the new row is its last |
| StockLedger.StockDatabase.Apply | apps/backend/src/modules/estoque/movement/stock-movement.service.ts:81-212 | a movement posts its debit, credit and rows together or fails for the stated reason and changes nothing, as the function of the movement says whose buckets the next two rows list; the record names the rows written |
| MovementTable.EachTypeMovesItsBuckets | apps/backend/src/modules/estoque/movement/stock-movement-effects.util.ts:90-154 | for each of the 18 types, the bucket it debits and the bucket it credits, as constants or as the override, at which keys; every bucket afterwards is what it was minus the quantity on the one and plus it on the other; and exactly when the type is refused, and why |
| MovementTable.EachTypeLeavesItsRows | apps/backend/src/modules/estoque/movement/stock-movement.service.ts:98-212 | one row, or two for a receipt of a transfer, copying the movement, with a "from" side exactly when a bucket was debited and a "to" side exactly when one was credited |
| LedgerReplay.LedgerRebuildsBalances | apps/backend/src/modules/estoque/movement/stock-movement.service.ts:154-212 | after any run every bucket equals credits minus debits of the ledger, if and only if every accepted location move gave a "to" side wherever it gave a "from" side |
| LedgerReplay.UnnamedPalletBreaksReplay | apps/backend/src/modules/estoque/movement/stock-movement.service.ts:185-206 | stock moved off a pallet without naming one: the balances hold it off the pallet, the ledger on it |
| LedgerReplay.NoBucketEverNegative | apps/backend/src/modules/estoque/movement/stock-movement.service.ts:215-235 | no run of accepted and refused movements leaves a bucket below zero |
| LedgerReplay.StockOnHandIsConserved | apps/backend/src/modules/estoque/movement/stock-movement-effects.util.ts:90-154 | per product, stock over all warehouses, rows and buckets is what entered minus what left by type; all other types are neutral |
| LedgerReplay.TransitIsDispatchedMinusReceived | apps/backend/src/modules/estoque/movement/stock-movement.service.ts:98-152 | goods in transit at an origin are those dispatched and not yet received, as long as no override names the transit bucket |
| LedgerPairs.ReverseUndoes | apps/backend/src/modules/estoque/movement/stock-movement-effects.util.ts:101-121 | a reservation, release, block or unblock is undone by its reverse, which is always accepted, down to every bucket |
| LedgerPairs.OnlyAvailableStockIsTaken | apps/backend/src/modules/estoque/movement/stock-movement-effects.util.ts:101-119 | a reservation or block takes from the available bucket, and is accepted exactly when that holds the quantity |
| LedgerPairs.TransferDelivers | apps/backend/src/modules/estoque/movement/stock-movement.service.ts:98-152 | dispatch and receipt together move the quantity from the origin to the destination and leave nothing in transit |
| Calendar.TextOrderIsDayOrderExactly | apps/backend/src/modules/estoque/selection/stock-selection.util.ts:75-80 | for every pair of dates, text order is day order unless a year below 100 moves one past the other |
| Calendar.DifferenceIsUtcOrder | apps/backend/src/modules/estoque/selection/stock-selection.util.ts:75-80 | the sign of a day difference is the order of the days read, for every pair |
| Calendar.TextOrderIsDayOrder | apps/backend/src/modules/estoque/selection/stock-selection.util.ts:132-135 | for dates from year 100 on, ISO text order is day order and equal text is distance zero |
| Calendar.TextOrderSoundFromYear100 | apps/backend/src/modules/estoque/selection/stock-selection.util.ts:75-80 | text order agrees with the day difference from a given year on exactly when that year is at least 100 |
| Calendar.YearBelow100IsMisplaced | apps/backend/src/modules/estoque/selection/stock-selection.util.ts:75-80 | two dates around the year 100 whose day difference has the wrong sign |
| Calendar.DifferenceCountsDays | apps/backend/src/modules/estoque/selection/stock-selection.util.ts:75-80 | for every pair, the day difference is n, forward or backward, exactly when n steps of the civil calendar lead from one day read to the other |
| Calendar.DayNumberIsGregorian | apps/backend/src/modules/estoque/selection/stock-selection.util.ts:75-80 | the day number is the closed formula of the Gregorian calendar with years that begin in March |
| Calendar.DifferencesAdd | apps/backend/src/modules/estoque/selection/stock-selection.util.ts:75-80 | day differences are additive and change sign when reversed |
| ShelfLife.CentiPercentIsExact | apps/backend/src/modules/estoque/selection/stock-selection.util.ts:65-73 | the parsed hundredths are the decimal's value cut off after two decimals, and exact up to two decimals |
| ShelfLife.ShelfLifeIsTheRationalRule | apps/backend/src/modules/estoque/selection/stock-selection.util.ts:111-120 | the integer test equals remaining days divided by life times 100 being at least the percentage, over the rationals, and accepts whenever expiry, life or percentage is missing or the life is not positive |
| ShelfLife.ShelfLifeIsMonotone | apps/backend/src/modules/estoque/selection/stock-selection.util.ts:111-120 | for all dates, a later expiry or an earlier today, by the days they are read as, never turns acceptance into rejection |
| ShelfLife.DaysLeftDecide | apps/backend/src/modules/estoque/selection/stock-selection.util.ts:111-120 | one pair of dates is accepted wherever another is, whatever life and percentage are demanded, exactly when it leaves at least as many days |
| PolicyOrder.ChainPreorder | apps/backend/src/modules/estoque/selection/stock-selection.util.ts:132-183 | every comparator chain is reflexive, antisymmetric in sign and transitive, strictly so when one side is strict |
| PolicyOrder.LeadingCriterionDecides | apps/backend/src/modules/estoque/selection/stock-selection.util.ts:174-183 | FEFO goes by expiry, FIFO by earlier and LIFO by later entry, JIT by cross-docking first, whatever the tie-breakers say |
| PolicyOrder.TiesGoToPickingThenCode | apps/backend/src/modules/estoque/selection/stock-selection.util.ts:155-183 | when dates and zone tie, picking locations come first and the location code decides last, in every policy |
| PolicyOrder.MissingExpiryIsLast | apps/backend/src/modules/estoque/selection/stock-selection.util.ts:137-150 | a dated candidate precedes an undated one in FEFO, and in FIFO when entry dates tie |
| PolicyOrder.PolicyIsItsDictionaryOrder | apps/backend/src/modules/estoque/selection/stock-selection.util.ts:132-195 | for every two candidates and each policy, one precedes the other exactly by the dictionary order written out on expiry, entry date, zone, picking and location code |
| PolicyOrder.OrderedExactly | apps/backend/src/modules/estoque/selection/stock-selection.util.ts:186-195 | a list is the ordered one exactly when nothing stands behind what it goes before, and candidates the policy does not tell apart keep their order |
| Text.CompareTextIsDictionaryOrder | apps/backend/src/modules/estoque/selection/stock-selection.util.ts:132-135 | a text compares as smaller exactly when it ends first or has the smaller character where they part |
| PolicyOrder.OrderIsStableSort | apps/backend/src/modules/estoque/selection/stock-selection.util.ts:186-195 | ordering by a policy is a stable sort |
| PolicyOrder.StableSortIsUnique | apps/backend/src/modules/estoque/selection/stock-selection.util.ts:186-195 | a list is a stable sort by a chain exactly when it is the one computed |
| PolicyOrder.StableSortIsPermutation | apps/backend/src/modules/estoque/selection/stock-selection.util.ts:186-195 | sorting loses and invents no candidate |
| PolicyOrder.FilterCommutesWithOrder | apps/backend/src/modules/estoque/selection/stock-selection.util.ts:186-233 | any filter and the ordering commute |
| PolicyOrder.JitOrderIsTwoFifos | apps/backend/src/modules/estoque/selection/stock-selection.util.ts:174-183 | JIT order is FIFO of the cross-docking candidates followed by FIFO of the rest |
| Allocation.RestrictToAccessiblePallets | apps/backend/src/modules/estoque/selection/stock-selection.util.ts:219-233 | keeps exactly the candidates that are not in a LIFO channel or are the latest of theirs, in order |
| Allocation.RestrictionCommutesWithOrder | apps/backend/src/modules/estoque/selection/stock-selection.util.ts:219-233 | restricting to accessible pallets and ordering by policy commute |
| Allocation.AllocateDemand | apps/backend/src/modules/estoque/selection/stock-selection.util.ts:259-272 | the loop returns the greedy allocation and the uncovered demand |
| Allocation.TakesAreFeasible | apps/backend/src/modules/estoque/selection/stock-selection.util.ts:259-272 | amounts respect what each candidate has, and total the smaller of the demand and all that is usable |
| Allocation.EarlierAreUsedUp | apps/backend/src/modules/estoque/selection/stock-selection.util.ts:259-272 | nothing is taken from a candidate before every earlier one is used up |
| Allocation.TakesAreTheLexGreatest | apps/backend/src/modules/estoque/selection/stock-selection.util.ts:259-272 | a feasible allocation is the greedy one exactly when no feasible allocation exceeds it lexicographically |
| Selection.AdmitRows | apps/backend/src/modules/estoque/selection/stock-selection.service.ts:102-148 | the loop admits rows by shelf life or override and records every excluded balance |
| Selection.LoadScope | apps/backend/src/modules/estoque/selection/stock-selection.service.ts:91-158 | the scope is containment, then shelf life, then accessible pallets, then the forced batch |
| Selection.SelectInTransaction | apps/backend/src/modules/estoque/selection/stock-selection.service.ts:83-171 | fails exactly for a non-positive demand, a missing product, or when neither the product nor, in its absence there, the client names a policy; otherwise goes by the policy named, consumes the ordered scope greedily and flags breaks, exclusions and overrides |
| Selection.ScopeMembers | apps/backend/src/modules/estoque/selection/stock-selection.service.ts:91-158 | the scope is exactly the rows of the table on hand for the tenant, fresh enough or overridden, of the forced batch, and latest of their LIFO channel, said on the rows themselves; each balance once |
| Selection.ExcludedExactly | apps/backend/src/modules/estoque/selection/stock-selection.service.ts:102-118 | a balance is excluded exactly when its row is on hand and not fresh enough, whether or not the exclusion is overridden |
| Selection.GreedyIsPolicyOptimal | apps/backend/src/modules/estoque/selection/stock-selection.util.ts:174-195 | ordering and consuming is policy-optimal: whatever goes before something taken, in the written-out order of the policy, is used up, and the total is the smaller of demand and stock |
| Selection.SelectionIsPolicyOptimal | apps/backend/src/modules/estoque/selection/stock-selection.service.ts:83-171 | a selection outcome is policy-optimal over the rows that may be consumed |
| Reservation.SelectLocked | apps/backend/src/modules/estoque/selection/stock-reservation.service.ts:113-148 | over locked rows the selection is optimal, hits distinct rows, takes at most what each has, and reports breaks, exclusions and overrides |
| Reservation.AllocationsHitDistinctRows | apps/backend/src/modules/estoque/selection/stock-reservation.service.ts:113-212 | allocations of distinct balances name pairwise distinct keys, each within its available quantity |
| Reservation.AuthorizationExactly | apps/backend/src/modules/estoque/selection/stock-reservation.service.ts:259-314 | a policy break is authorised exactly with the permission, a reason that is not blank and a QUEBRA_FEFO exception on record, of the request's warehouse and approved; otherwise it is refused with the first of these it lacks |
| Text.TrimLeavesNothingExactly | apps/backend/src/modules/estoque/selection/stock-reservation.service.ts:277-279 | a reason is blank exactly when all its characters are among the 25 that trimming removes |
| Reservation.ReserveOne | apps/backend/src/modules/estoque/selection/stock-reservation.service.ts:156-176 | one RESERVA on a row not yet touched is accepted and moves exactly its amount from available to reserved |
| Reservation.ReservationService.ReserveAllocation | apps/backend/src/modules/estoque/selection/stock-reservation.service.ts:153-212 | one allocation becomes one movement and one active reservation that points at it |
| Reservation.ReservationService.ApplyAllocations | apps/backend/src/modules/estoque/selection/stock-reservation.service.ts:150-212 | all allocations are recorded, moved amount for amount, and summed |
| Reservation.ReservationService.Reserve | apps/backend/src/modules/estoque/selection/stock-reservation.service.ts:78-234 | a break of the policy goes through only with permission, reason and an approved QUEBRA_FEFO exception of the warehouse, and is refused with the first thing it lacks; refused without any change also for an uncovered demand, shelf-life exclusions overridden without an attachment, or a failed selection; otherwise optimal, flagged, recorded, and exactly demand minus shortfall moves to reserved |
| ReservationConcurrency.DebitIsNeverRefused | apps/backend/src/modules/estoque/selection/stock-reservation.service.ts:16-20 | a RESERVA debit inside a transaction that holds its locks never fails, whatever others act on |
| ReservationConcurrency.StockIsConserved | apps/backend/src/modules/expedicao/order/outbound-order.service.ts:292-312 | in every interleaving, available plus reserved plus shipped of a row is what was there plus what other movements did, and no bucket is negative |
| ReservationConcurrency.ActsExactly | apps/backend/src/modules/expedicao/order/outbound-order.service.ts:292-312 | what cancelling, cutting, shipping and reinstating move between the buckets, by what was read, and how they rewrite the record; nothing at all when the reserved bucket holds too little |
| ReservationConcurrency.StepAgreesExactly | apps/backend/src/modules/expedicao/loading/loading.service.ts:167-188 | while the records of reservations agree with the stock, a step keeps them so if and only if it does not act, with effect, on a reservation that changed since it was read |
| ReservationConcurrency.RecordsAgreeExactly | apps/backend/src/modules/reversa/recall/recall.service.ts:187-226 | over every run, the records agree with the stock throughout if and only if no step acts on a stale read |
| ReservationConcurrency.FreshSettlementIsNeverRefused | apps/backend/src/modules/expedicao/loading/loading.service.ts:167-188 | while they agree, cancelling, cutting or shipping a reservation that is still as it was read always finds it in the reserved bucket |
| ReservationConcurrency.NoUnitPromisedTwice | apps/backend/src/modules/estoque/selection/stock-reservation.service.ts:113-212 | in every run without stale acts, available plus promised plus shipped of a row is what was there plus what other movements did, and only a stale act can be refused |
| StaleReservations.StaleRecallPromisesTwice | apps/backend/src/modules/reversa/recall/recall.service.ts:187-226 | a run in which a recall overlaps a shipment and ten units are promised of a row that has five |
| StaleReservations.LiveShipmentIsRefused | apps/backend/src/modules/expedicao/loading/loading.service.ts:167-188 | in that run the shipment of an active reservation is refused |
| Approval.GetAuthority | apps/backend/src/core/workflow/approval-authority.service.ts:19-79 | the loop returns the folded limits, or nothing when no row applies |
| Approval.FoldingKeepsWhatSomeRowAllows | apps/backend/src/core/workflow/approval-authority.service.ts:19-60 | with null as unlimited, the folded limits allow an amount exactly when some row does, quantity and value apart |
| Approval.EscalationRule | apps/backend/src/core/workflow/approval-authority.service.ts:82-86 | an exception escalates exactly when no row allows its quantity or no row allows its value |
| Approval.RuleIsMetExactly | apps/backend/src/core/workflow/approval-authority.service.ts:62-86 | a configuration escalates exactly what exceeds every authority, for all amounts, if and only if one authority is at least as wide as every other or there is none |
| Approval.FoldedLimitsMixRows | apps/backend/src/core/workflow/approval-authority.service.ts:62-86 | two authorities, and five units worth five, which neither covers and which does not escalate |
| Approval.ExceptionService.Create | apps/backend/src/core/workflow/operational-exception.service.ts:35-96 | creates an undecided exception, pending exactly when some configured row allows its quantity and some row its value, and otherwise escalated; fails exactly for an unknown type or a missing reason |
| Approval.EscalatedExactlyBeyondLimits | apps/backend/src/core/workflow/operational-exception.service.ts:35-96 | over every run, an exception is escalated while it is open, and decided by managers, exactly when it was created beyond the limits configured then |
| Approval.ExceptionService.Decide | apps/backend/src/core/workflow/operational-exception.service.ts:108-197 | succeeds exactly on an open exception, by someone other than the requester and earlier deciders, who is a manager when it is escalated and within limits when it is pending; otherwise names the first obstacle and changes nothing; what the decision leaves is stated field by field |
| Approval.ExceptionService.ExpireOverdue | apps/backend/src/core/workflow/operational-exception.service.ts:237-270 | expires exactly the pending and escalated exceptions created longer ago than their type allows and not locked elsewhere, and changes no other |
| Approval.DecidedIsSound | apps/backend/src/core/workflow/operational-exception.service.ts:108-197 | every decision keeps the chain proper and the status in step with the decisions recorded |
| Approval.ApprovedMeansProperlyApproved | apps/backend/src/core/workflow/operational-exception.service.ts:108-197 | in every run, APPROVED means exactly the prescribed approvals, numbered in order, by different people other than the requester, each a manager or covered |
| Approval.DecidedStaysDecided | apps/backend/src/core/workflow/operational-exception.service.ts:108-115 | a decided or expired exception never changes |
| Discard.DiscardService.DecideDiscard | apps/backend/src/modules/estoque/blocking/stock-reclassification.service.ts:185-255 | exception, request and stock in every outcome: nothing changes when there is nothing to decide or the workflow refuses; otherwise the decision is recorded and the stock of the caller's warehouse is taken, the request refused, or, when the movement fails, the request left pending |
| Discard.DiscardTakesExactly | apps/backend/src/modules/estoque/blocking/stock-reclassification.service.ts:209-225 | the discard is posted exactly when the bucket of the request holds its quantity in the caller's warehouse, takes it from this bucket alone, and leaves one row on account of the exception |
| Discard.EveryDiscardIsApprovedAndUnique | apps/backend/src/modules/estoque/blocking/stock-reclassification.service.ts:185-255 | in every interleaving each DESCARTE row settles one request under an exception of the discard type opened for it, its quantity and its requester, properly approved, and no exception backs two; it is on the request's own key if and only if the deciding call named the request's warehouse |
| Discard.LostExactly | apps/backend/src/modules/estoque/blocking/stock-reclassification.service.ts:200-255 | a step loses a decided discard exactly when the deciding call dies, the approved movement finds too little in the caller's warehouse, or the exception is closed by another call |
| Discard.DiscardLostExactly | apps/backend/src/modules/estoque/blocking/stock-reclassification.service.ts:200-255 | over every run, a discard is lost exactly when some step lost it |
| Discard.ApprovedDiscardIsAwaitedDoneOrLost | apps/backend/src/modules/estoque/blocking/stock-reclassification.service.ts:207-254 | an approved discard is about to be applied, carried out by exactly the one row its resolution names, or lost with no row |
| Discard.DiscardFollowsTheCaller | apps/backend/src/modules/estoque/blocking/stock-reclassification.service.ts:207-222 | a run of five calls, for any two warehouses: the approved discard takes the stock of the warehouse its caller names, or is lost although the stock is in the other |
| Counting.TreeMeaning | apps/backend/src/modules/estoque/inventory/inventory-round-decision.util.ts:30-62 | the tree settles on a count agreed by two people or on the shift leader's, confirms exactly non-zero differences and otherwise awaits the next round |
| Counting.InventoryService.Plan | apps/backend/src/modules/estoque/inventory/inventory-planning.service.ts:74-119 | creates a planned header with one pending cell per place, and refuses an empty scope |
| Counting.InventoryService.Start | apps/backend/src/modules/estoque/inventory/inventory-planning.service.ts:122-176 | freezes the locations and opens the cells of a planned header, or changes nothing |
| Counting.StartFreezesAllOrNone | apps/backend/src/modules/estoque/inventory/inventory-planning.service.ts:145-159 | a start succeeds exactly when every location of the scope is active, and then freezes all of them and no other |
| Counting.InventoryService.Cancel | apps/backend/src/modules/estoque/inventory/inventory-planning.service.ts:179-192 | cancels planned headers only |
| Counting.InventoryService.CreateAndFreezeSingleLocation | apps/backend/src/modules/estoque/inventory/inventory-planning.service.ts:200-257 | adds a started one-cell count and freezes its location, whatever that was doing |
| Counting.InventoryService.SubmitRound | apps/backend/src/modules/estoque/inventory/inventory-count-execution.service.ts:59-207 | a recorded operation is answered from its record and does nothing; otherwise fails exactly for a missing cell, a refused round or a refused exception, changing nothing, or adds the round, settles the cell as the tree says and records the operation |
| CountingSteps.RefusedExactly | apps/backend/src/modules/estoque/inventory/inventory-count-execution.service.ts:84-127 | a round is welcome exactly on an open, unsettled cell of the warehouse, from the right person and not below zero; otherwise the first objection is the one returned |
| CountingSteps.SubmittedExactly | apps/backend/src/modules/estoque/inventory/inventory-count-execution.service.ts:129-205 | what a round leaves: counting while unsettled; finished, with location and count released when they were waiting for it, when it confirms the system; pending its exception otherwise; nothing else changes |
| Counting.InventoryService.DecideAdjustment | apps/backend/src/modules/estoque/inventory/inventory-count-execution.service.ts:230-328 | the workflow decides first, and its decision is recorded in every case; the effect on cell, header, location and the stock of the caller's warehouse happens entirely or not at all, with the reason |
| CountingSteps.DecidedAdjustmentExactly | apps/backend/src/modules/estoque/inventory/inventory-count-execution.service.ts:249-326 | a rejection reopens the cell with its rounds as history; an approval posts exactly counted minus system, in one row and one bucket of the caller's warehouse, and finishes the cell, or fails exactly for a missing product, no difference or too little stock |
| Counting.InventoryService.ReleaseLocationIfDone | apps/backend/src/modules/estoque/inventory/inventory-count-execution.service.ts:331-343 | releases a location exactly when all cells of the count there are completed |
| Counting.InventoryService.CompleteHeaderIfDone | apps/backend/src/modules/estoque/inventory/inventory-count-execution.service.ts:346-393 | closes a header, with its accuracy, exactly when all its cells are completed |
| Counting.LocationAccuracyIsAProportion | apps/backend/src/modules/estoque/inventory/inventory-count-execution.service.ts:350-378 | location accuracy lies between 0 and 1, and is 1 exactly when no location diverges |
| Counting.QuantityAccuracyIsAtMostOne | apps/backend/src/modules/estoque/inventory/inventory-count-execution.service.ts:350-379 | quantity accuracy is at most 1, and is 1 exactly when nothing diverges or the system held nothing |
| CountingSteps.LocationAccuracyIs | apps/backend/src/modules/estoque/inventory/inventory-count-execution.service.ts:350-378 | location accuracy times the number of places is the number of places counted without divergence |
| CountingSteps.QuantityAccuracyIs | apps/backend/src/modules/estoque/inventory/inventory-count-execution.service.ts:350-379 | one minus quantity accuracy, times what the system held, is the sum of the divergences |
| CountingRuns.CountingFollowsTheRules | apps/backend/src/modules/estoque/inventory/inventory-count-execution.service.ts:59-207 | in every reachable state rounds are numbered, by the right people, a cell is open exactly when the tree awaits a round, and pends adjustment exactly when a confirmed divergence has no ledger row yet |
| CountingRuns.AdjustmentsAreExactAndUnique | apps/backend/src/modules/estoque/inventory/inventory-count-execution.service.ts:230-328 | each exception has at most one adjustment row, exactly counted minus system of the cell's content on no pallet, only after a proper approval, in the warehouse the deciding call named: on the cell's own key if and only if that is the cell's |
| CountingRuns.RejectionOpensAFreshCycle | apps/backend/src/modules/estoque/inventory/inventory-count-execution.service.ts:258-265 | a rejection keeps the old rounds as history, awaits round 1 and touches no stock |
| CountingRuns.AcceptedCountBecomesAvailable | apps/backend/src/modules/estoque/inventory/inventory-count-execution.service.ts:267-292 | an approved adjustment changes the key of the caller's warehouse alone; the cell's own key then holds the accepted count if and only if it held the system's count before and the caller named its warehouse, or held the accepted count already and the caller did not |
| CountingRuns.UndisturbedCountIsExact | apps/backend/src/modules/estoque/inventory/inventory-count-execution.service.ts:267-292 | when no other movement touched the cell's own key since it was read, the approved adjustment leaves exactly the accepted count on it if and only if the caller named the cell's warehouse |
| CountingRuns.FrozenExactlyWhileUnfinished | apps/backend/src/modules/estoque/inventory/inventory-count-execution.service.ts:331-393 | a location is frozen exactly while one started count has an unfinished cell there; a started header is completed exactly when all its cells are |
| CountingLimits.AdjustmentSucceedsExactly | apps/backend/src/modules/estoque/inventory/inventory-count-execution.service.ts:274-292 | an approved adjustment can be applied exactly when the cell has a product and, for a loss, the unpalletised key of the caller's warehouse holds it |
| CountingLimits.StrandsExactly | apps/backend/src/modules/estoque/inventory/inventory-count-execution.service.ts:230-256 | a step strands a pending cell exactly when its one attempt does not fit, the deciding call dies, or the exception is closed by another call |
| CountingLimits.StrandedExactly | apps/backend/src/modules/estoque/inventory/inventory-count-execution.service.ts:230-328 | over whole runs, a cell ends up stranded exactly when some step lost its effect |
| CountingLimits.WhatNeverFitsStrands | apps/backend/src/modules/estoque/inventory/inventory-count-execution.service.ts:278-292 | an effect that fits at no point of a run is still awaited at its end, or stranded |
| CountingLimits.PalletisedLossStrands | apps/backend/src/modules/estoque/inventory/inventory-count-execution.service.ts:278-292 | a run of seven calls that approves a loss of stock on a pallet and strands its cell |
| CountingLimits.GainLandsAtTheCaller | apps/backend/src/modules/estoque/inventory/inventory-count-execution.service.ts:276-292 | a run of seven calls that approves a gain of one warehouse from another, which is credited with it |
| CountingLimits.StrandedForEver | apps/backend/src/modules/estoque/inventory/inventory-count-execution.service.ts:230-256 | once an effect is lost, the cell waits, its location stays frozen and its count open in every later state |
| CountingLimits.DisciplineIsExact | apps/backend/src/modules/estoque/inventory/inventory-planning.service.ts:200-257 | a step from a sound state leads to a sound state if and only if the callers saw to it |
| CountingLimits.DisciplinedRunsAreExact | apps/backend/src/modules/estoque/inventory/inventory-planning.service.ts:122-257 | a run passes through sound states alone if and only if it is disciplined |
| CountingLimits.RoundBeforeStartExactly | apps/backend/src/modules/estoque/inventory/inventory-count-execution.service.ts:89-91 | a first round before the start completes a header exactly when it settles its only cell, and otherwise leaves a cell that is open after the start and refuses every round exactly when it matched |
| CountingLimits.SecondFreezeReleasesExactly | apps/backend/src/modules/estoque/inventory/inventory-planning.service.ts:245-246 | finishing a location frozen singly leaves another count unfinished there, though released, exactly when it was under count |
| CountingConcurrency.NeverReleasedEarly | apps/backend/src/modules/estoque/inventory/inventory-count-execution.service.ts:331-348 | in every interleaving of calls that finish cells, nothing is released or closed before all cells are finished |
| CountingConcurrency.ReleasedExactly | apps/backend/src/modules/estoque/inventory/inventory-count-execution.service.ts:331-348 | and it is released or closed if and only if some call looked after all others had committed, and then committed |
| CountingConcurrency.NeverReleasedLater | apps/backend/src/modules/estoque/inventory/inventory-count-execution.service.ts:331-348 | all cells finished without that stay so |
| CountingConcurrency.OverlapReleasesNothing | apps/backend/src/modules/estoque/inventory/inventory-count-execution.service.ts:331-348 | a run of six steps that finishes both cells and releases nothing |
| OperationFlow.FlowService.constructor | apps/backend/src/core/operation-flow/operation-flow.service.ts:34-57 | steps are created a hundred apart, the first one started |
| OperationFlow.FlowService.GetFlowState | apps/backend/src/core/operation-flow/operation-flow.service.ts:91-151 | one pass marks as blocked the steps linked to a pending or escalated exception on record, and as actionable the first pending step, unless blocked, and no other |
| OperationFlow.FlowService.CompleteStep | apps/backend/src/core/operation-flow/operation-flow.service.ts:241-299 | refuses a step that is not the first pending one, and the first pending one exactly when its linked exception is on record and pending or escalated; otherwise marks it done, starts the next or completes the flow, and changes nothing else |
| OperationFlow.FlowService.InsertDynamicStep | apps/backend/src/core/operation-flow/operation-flow.service.ts:197-234 | inserts at the midpoint after the anchor, once per code, or fails without change |
| OperationFlow.InsertExactly | apps/backend/src/core/operation-flow/operation-flow.service.ts:197-234 | a step lands, started and pending, halfway between its anchor and the next step; refused exactly for an unknown anchor or neighbours less than two apart; a code that is there already changes nothing |
| OperationFlow.FlowService.LinkBlockingException | apps/backend/src/core/operation-flow/operation-flow.service.ts:158-166 | links an exception to one step and changes nothing else; fails exactly when there is no such step |
| OperationFlow.FlowService.ClearBlockingException | apps/backend/src/core/operation-flow/operation-flow.service.ts:169-176 | clears the link of one step and changes nothing else; answers nothing exactly when there is no such step |
| OperationFlow.LinkHoldsBackExactly | apps/backend/src/core/operation-flow/operation-flow.service.ts:158-176 | a link makes completing the first pending step fail exactly while its exception is pending or escalated; clearing it makes completing succeed |
| OperationFlow.DecisionFreesTheStep | apps/backend/src/core/operation-flow/operation-flow.service.ts:255-271 | whatever happens in the workflow, the step can be completed exactly when its exception has been approved, rejected or has expired, and then at every later point |
| OperationFlow.FlowService.CancelFlow | apps/backend/src/core/operation-flow/operation-flow.service.ts:301-303 | cancels the flow and leaves its steps alone |
| OperationFlow.RunsStayOrdered | apps/backend/src/core/operation-flow/operation-flow.service.ts:197-223 | in every run orders strictly increase, codes stay unique and the first pending step has started |
| OperationFlow.ReadsAgreeWithWrites | apps/backend/src/core/operation-flow/operation-flow.service.ts:118-131 | in every run a step is reported actionable exactly when completing it would succeed; it is the least pending step, the only such one, and started |
| OperationFlow.InsertKeepsCompletionOrderExactly | apps/backend/src/core/operation-flow/operation-flow.service.ts:215-232 | an insertion keeps DONE steps a prefix in completion order if and only if its anchor is not followed by a DONE step |
| OperationFlow.RunsCompleteInOrderExactly | apps/backend/src/core/operation-flow/operation-flow.service.ts:241-299 | over every run, steps complete in the order of their sequence if and only if no step was ever inserted before a DONE one; otherwise some step stays overtaken for good |
| OperationFlow.LateInsertionOvertakes | apps/backend/src/core/operation-flow/operation-flow.service.ts:215-232 | a run of four events whose completions disagree with its sequence |
| OperationFlow.InsertIsInsertOrder | apps/backend/src/core/operation-flow/operation-flow.service.ts:215-223 | inserting a step is inserting a midpoint into the list of orders, and succeeds exactly when there is one |
| OperationFlow.GapAdmitsInsertions | apps/backend/src/core/operation-flow/operation-flow.service.ts:215-223 | any k insertions inside a gap of at least 2 to the k find room, wherever they go |
| OperationFlow.GapAdmitsExactly | apps/backend/src/core/operation-flow/operation-flow.service.ts:215-223 | every choice of k insertions between two neighbouring steps finds room if and only if they are at least 2 to the k apart |
| OperationFlow.FixedGapAdmitsSix | apps/backend/src/core/operation-flow/operation-flow.service.ts:25 | two neighbouring steps a hundred apart always admit six insertions between them |
| OperationFlow.SeventhMayNotFit | apps/backend/src/core/operation-flow/operation-flow.service.ts:219-223 | and, always right after the same step, the seventh finds no room |
| OperationFlow.AppendAlwaysFits | apps/backend/src/core/operation-flow/operation-flow.service.ts:219-223 | inserting after the last step never fails |
| Replenishment.ReplenishmentService.GenerateIfNeeded | apps/backend/src/modules/estoque/replenishment/replenishment-task.service.ts:55-84 | creates a task unless one is open for the same product and destination |
| Replenishment.OpenTasksStayDifferent | apps/backend/src/modules/estoque/replenishment/replenishment-task.service.ts:47-64 | no step ever leaves two open tasks for the same product and destination |
| Replenishment.ReplenishmentService.AssignTask | apps/backend/src/modules/estoque/replenishment/replenishment-task.service.ts:102-128 | assigns created tasks and those with a rejected scan only |
| Replenishment.ReplenishmentService.ExecuteTask | apps/backend/src/modules/estoque/replenishment/replenishment-task.service.ts:136-218 | replays a stored result, refuses without effect, records a scan mismatch, or moves the stock, finishes the task and stores the result together |
| Replenishment.ExecutedExactly | apps/backend/src/modules/estoque/replenishment/replenishment-task.service.ts:136-202 | when an execution is a replay, is refused, records a wrong scan, or moves the whole quantity of the task from the available stock of its origin to that of its destination and nothing else |
| Replenishment.StepKeepsTables | apps/backend/src/modules/estoque/replenishment/replenishment-task.service.ts:171-202 | every step keeps stored results, finished tasks and replenishment rows in one-to-one correspondence |
| Replenishment.AtMostOneMovement | apps/backend/src/modules/estoque/replenishment/replenishment-task.service.ts:171-202 | no task ever has two replenishment rows |
| OfflineSync.OfflineSyncService.ProcessOne | apps/backend/src/modules/campo/offline-sync/offline-sync.service.ts:139-188 | one operation is classified and dispatched, its record holds the decision, and a rejection by rule opens one exception about its task |
| OfflineSync.OfflineSyncService.ClassifyAndDispatch | apps/backend/src/modules/campo/offline-sync/offline-sync.service.ts:200-253 | the four decisions, from the status seen before the call and the outcome of the call |
| OfflineSync.ProcessedExactly | apps/backend/src/modules/campo/offline-sync/offline-sync.service.ts:200-253 | an operation is invalid exactly when its task is unknown or cancelled, and then nothing is executed; otherwise applied, duplicate or rejected by the outcome and by whether the task was done |
| OfflineSync.OfflineSyncService.Sincronizar | apps/backend/src/modules/campo/offline-sync/offline-sync.service.ts:126-137 | the whole batch is processed in recording order, one result each, with one exception for each rejection by rule |
| OfflineSync.ResendIsApplied | apps/backend/src/modules/estoque/replenishment/replenishment-task.service.ts:139-142 | an operation that took effect is APLICADA again whenever it is sent again, and changes nothing |
| OfflineSync.SecondOperationIsDiscarded | apps/backend/src/modules/campo/offline-sync/offline-sync.service.ts:243-252 | another operation on a finished task is DESCARTADA_DUPLICIDADE, whatever happens between the look and the call |
| OfflineSync.OnlyAppliedMovesStock | apps/backend/src/modules/campo/offline-sync/offline-sync.service.ts:240-252 | a decision is APLICADA exactly when the operation has a stored result; any other moves no stock |
| OfflineSync.FieldDevice.ConfirmTask | apps/frontend/src/lib/field/confirm-task.ts:21-33 | the operation is recorded as waiting and its task marked as queued, before anything is sent |
| OfflineSync.FieldDevice.SaveShiftPackage | apps/frontend/src/lib/field/shift-package-store.ts:35-61 | a pulled package adds unknown tasks and changes no known one |
| OfflineSync.FieldDevice.UpdateTaskProgress | apps/frontend/src/lib/field/shift-package-store.ts:81-88 | a known task is offered for execution again, whatever its status was, and keeps its queued operation; an unknown one and all others are untouched |
| OfflineSync.FieldDevice.SetTaskLocalStatus | apps/frontend/src/lib/field/shift-package-store.ts:101-110 | sets the status of a known task and forgets its operation when it is pending again |
| OfflineSync.FieldDevice.MarkAll | apps/frontend/src/lib/field/sync-queue-store.ts:52-77 | the loops mark exactly the given operations |
| OfflineSync.FieldDevice.BeginSync | apps/frontend/src/lib/field/sync-engine.ts:35-54 | takes everything that waits, in recording order, unless a run is under way, offline or nothing waits |
| OfflineSync.FieldDevice.EndSync | apps/frontend/src/lib/field/sync-engine.ts:56-86 | on failure everything sent waits again; otherwise each result resolves its operation and its task, and the run ends |
| OfflineSync.AnswersResolve | apps/frontend/src/lib/field/sync-engine.ts:70-71 | the answers of a batch resolve exactly the records they name, the last answer for a record counting |
| OfflineSync.AnswersSettle | apps/frontend/src/lib/field/sync-engine.ts:72-79 | the last answer about a task closes it when applied or a duplicate, and otherwise makes it pending; a task keeps its queued operation exactly when every answer about it closes it |
| OfflineSync.WaitingExactly | apps/frontend/src/lib/field/sync-queue-store.ts:35-39 | what waits is the records that are pending locally, all of them and in their order |
| OfflineSyncRuns.LookThenCallProcesses | apps/backend/src/modules/campo/offline-sync/offline-sync.service.ts:200-253 | the two server steps of the protocol, undisturbed, are what processing one operation means |
| OfflineSyncRuns.ExactlyOnceEffect | apps/backend/src/modules/campo/offline-sync/offline-sync.service.ts:126-253 | in every interleaving with losses and resends, each replenishment row is the whole movement of one finished task by exactly one operation, and no task has two |
| OfflineSyncRuns.AppliedMeansMovedOnce | apps/frontend/src/lib/field/sync-engine.ts:70-79 | an operation resolved APLICADA on the device has exactly one movement, and a resend is APLICADA again |
| OfflineSyncRuns.LostAnswerIsAppliedAgain | apps/frontend/src/lib/field/sync-engine.ts:65-68 | an operation that took effect although its answer was lost is APLICADA when resent |
| OfflineSyncRuns.ClosedTasksAreFinished | apps/frontend/src/lib/field/sync-engine.ts:74-75 | a task closed on the device is finished on the server and its stock has moved |
| OfflineSyncRuns.ResolvedStaysResolved | apps/frontend/src/lib/field/sync-queue-store.ts:79-88 | what the device has resolved is never changed or sent again |
| OfflineSyncRuns.ReopenedTaskMovesNothing | apps/frontend/src/lib/field/shift-package-store.ts:81-88 | progress on a closed task reopens it on the device, and every other operation on it is still discarded as a duplicate |
| OfflineSyncLimits.TakesEffectExactly | apps/backend/src/modules/campo/offline-sync/offline-sync.service.ts:240-252 | a step applies an operation not applied yet exactly when it is the call that executes a copy of it, with success |
| OfflineSyncLimits.LateEffectExactly | apps/frontend/src/lib/field/sync-engine.ts:65-68 | an operation resolved without effect takes effect later exactly when a later call executes a copy still on its way |
| OfflineSyncLimits.RejectedIsSafeOnceDelivered | apps/frontend/src/lib/field/sync-engine.ts:65-68 | when no copy of a resolved operation is on its way, no continuation of the run applies it |
| OfflineSyncLimits.RejectedMayStillTakeEffect | apps/frontend/src/lib/field/sync-engine.ts:65-68 | a run of fifteen steps in which a rejected operation takes effect |
| OfflineSyncLate.MayStillApplyExactly | apps/frontend/src/lib/field/sync-engine.ts:65-68 | a resolved operation without effect can still be applied by some continuation if and only if a copy of it is on its way, its task is open and its scan is right |
| OfflineSyncLimits.OrphansExactly | apps/frontend/src/lib/field/sync-engine.ts:18-20 | a step orphans a queue record exactly when it is a reload that meets it as being sent, and orphans stay so |
| OfflineSyncLimits.OrphanedExactlyByReloads | apps/frontend/src/lib/field/sync-queue-store.ts:35-39 | in every run, the orphans are exactly the records that some reload met as being sent |
| OfflineSyncLimits.ReloadWhileSendingOrphans | apps/frontend/src/lib/field/sync-engine.ts:18-20 | a run of three steps that orphans an operation |
| EventPipeline.OutboxPublisher.SelectBatch | apps/backend/src/workers/outbox-publisher.worker.impl.ts:101-110 | the batch is the first unpublished rows nobody else has locked, up to the limit |
| EventPipeline.BatchIsUnpublished | apps/backend/src/workers/outbox-publisher.worker.impl.ts:101-110 | it is in ascending order, within the limit, complete when below it, and whatever it leaves out comes after all of it |
| EventPipeline.OutboxPublisher.PublishEach | apps/backend/src/workers/outbox-publisher.worker.impl.ts:112-145 | each event is added before its row is marked; a failed row update dooms the transaction but not the entries |
| EventPipeline.OutboxPublisher.PollBatch | apps/backend/src/workers/outbox-publisher.worker.impl.ts:97-168 | rows are marked only by a committed poll, exactly those whose update succeeded |
| EventPipeline.MarkedIsAdded | apps/backend/src/workers/outbox-publisher.worker.impl.ts:112-138 | whatever a poll marks, it has put on the stream |
| EventPipeline.DiscoveredExactly | apps/backend/src/workers/realtime-fanout.worker.impl.ts:77-81 | an event reaches a stream the fan-out reads exactly when its module is not named like the dead-letter stream |
| EventPipeline.ModuleIsUpToTheDot | apps/backend/src/workers/outbox-publisher.worker.impl.ts:30-33 | the module is the event type up to its first dot, or all of it |
| EventPipeline.FanoutWorker.HandleMessage | apps/backend/src/workers/realtime-fanout.worker.impl.ts:150-189 | an entry is acknowledged only when it was republished or has no topic |
| EventPipeline.FanoutWorker.MoveToDlq | apps/backend/src/workers/realtime-fanout.worker.impl.ts:277-297 | the copy comes before the acknowledgement |
| EventPipeline.FanoutWorker.CleanupDeadLetters | apps/backend/src/workers/realtime-fanout.worker.impl.ts:218-259 | every claimed entry is counted, then dead-lettered or retried |
| EventPipeline.CleanedExactly | apps/backend/src/workers/realtime-fanout.worker.impl.ts:218-297 | a claimed entry is copied and then acknowledged exactly when its counter, or one when it cannot be read, is above the limit; any other is published once more if it has a topic, and acknowledged when that worked or when it has none |
| EventPipelineRuns.NothingIsLost | apps/backend/src/workers/realtime-fanout.worker.impl.ts:111-297 | in every interleaving a published row has an entry, and an acknowledged entry was republished, has no topic, or was copied after more than maxRetries deliveries |
| EventPipelineRuns.RetriesAreBounded | apps/backend/src/workers/realtime-fanout.worker.impl.ts:211-275 | no entry gets more than maxRetries attempts made with the delivery counter known |
| EventPipelineRuns.SightedRetriesAreBounded | apps/backend/src/workers/realtime-fanout.worker.impl.ts:211-275 | in runs whose counter lookups all find the entry, no entry gets more than maxRetries publish attempts at all |
| EventPipelineLimits.ReadyBlindExactly | apps/backend/src/workers/realtime-fanout.worker.impl.ts:261-275 | an attempt is made without the counter exactly when the last thing that happened to the delivery was a lookup that failed or found the entry acknowledged |
| EventPipelineLimits.HistoryCountsAttempts | apps/backend/src/workers/realtime-fanout.worker.impl.ts:211-275 | over every run, the history of an entry counts all attempts, and those made after a lookup in vain |
| EventPipelineLimits.AttemptsAreBounded | apps/backend/src/workers/realtime-fanout.worker.impl.ts:211-275 | in every run an entry is tried at most maxRetries times, and once more for each attempt after a lookup in vain |
| EventPipelineLimits.BoundIsReached | apps/backend/src/workers/realtime-fanout.worker.impl.ts:211-275 | for every limit and every number of lookups in vain, some run tries an entry exactly so often |
| EventPipelineLimits.TriedTwiceUnderALimitOfOne | apps/backend/src/workers/realtime-fanout.worker.impl.ts:261-275 | a run of eight steps that tries an entry twice under a limit of one |
| EventPipelineRuns.UndiscoveredIsNeverDelivered | apps/backend/src/workers/realtime-fanout.worker.impl.ts:77-81 | an entry on a stream that is not discovered is never delivered |
| Base32.Encode | apps/backend/src/core/auth/mfa.util.ts:16-32 | the accumulator loop writes the bits of the bytes in groups of five, the last filled with zeros |
| Base32.Decode | apps/backend/src/core/auth/mfa.util.ts:34-50 | the accumulator loop reads the cleaned symbols' bits in groups of eight, dropping what does not fill a byte |
| Base32.WrapAroundIsHarmless | apps/backend/src/core/auth/mfa.util.ts:20-27 | reducing the accumulator to 32 bits never changes the pending bits |
| Base32.DecodeInvertsEncode | apps/backend/src/core/auth/mfa.util.ts:16-50 | decoding gives the bytes back for every text that differs from their encoding only in letter case and in characters whose upper case has nothing of the alphabet; the encoding has the least possible length |
| Base32.RoundTrip | apps/backend/src/core/auth/mfa.util.ts:16-50 | decoding what was encoded is the identity on every byte string |
| Base32Bits.EncodingIsTheBits | apps/backend/src/core/auth/mfa.util.ts:16-32 | every bit of the encoding, read off the character codes, is the bit of the bytes at that position, and zero after them; there are just enough characters |
| Base32Bits.DecodingIsTheBits | apps/backend/src/core/auth/mfa.util.ts:34-50 | every bit of the decoded bytes is the bit of the characters at that position; there are as many bytes as the bits fill |
| Base32Bits.LowerCaseIsRead | apps/backend/src/core/auth/mfa.util.ts:34-36 | an encoding written in lower case is decoded all the same |

## Left out

- Quantities in the code are JavaScript numbers around NUMERIC(18,6) columns; the model uses whole millionths and no floating point.
- Identifiers are natural numbers compared only for equality; the database's NOT NULL location makes the real runs a subset of the modelled ones.
- OperationFlow.FlowService.InsertDynamicStep: integer overflow of the sequence order column is not modelled, because orders are unbounded integers here.
- Counting.InventoryService.CompleteHeaderIfDone: accuracies are exact rationals, because the rounding to four decimals happens in the column type.
- Counting.InventoryService.Plan: the queries that choose the scope are an input, because they are SQL text.
- ReservationConcurrency.RecordsAgreeExactly: the reversal of a picking step, which reserves again what a cut had released, is left out, because it trusts an order of steps across modules that are not part of this model; the settlements of one call are separate steps, because nobody else can touch the rows it has changed before it commits.
- OfflineSync.OfflineSyncService.ClassifyAndDispatch: replenishment is the one executor modelled, because the others are not shown or follow the same contract.
- EventPipeline.OutboxPublisher.PollBatch: lag and pending metrics are left out, because nothing depends on them.
- ShelfLife.CentiPercentIsExact: the text has no surrounding blanks and is a number, because it comes from a NUMERIC column.
- Text.CompareText: compares Unicode code points where JavaScript compares UTF-16 units, because the texts compared are dates and location codes.
- Library sorting and `Date.UTC` are modelled by what they are specified to do.
- Fiscal write-offs, damage registration, audit rows, published event payloads, document numbering and row-level security are not part of this model.
- Controllers, permissions and roles appear only as predicates on inputs.
- The 500-operation queue limit of the device, which the code does not keep as an invariant.
