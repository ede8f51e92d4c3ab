/** Stock selection: the universe of candidates, shelf life, reachability, policy order and allocation. */
module Selection {
  import opened Common
  import opened Text
  import opened Calendar
  import opened ShelfLife
  import opened PolicyOrder
  import opened Allocation
  import opened StockLedger

  /** A balance row with what its joins say about it. `batchReleased` is true for stock without batch. */
  datatype StockRow = StockRow(tenant: Id, warehouse: Id, candidate: Candidate, batchReleased: bool, locationActive: bool)
  {
    function Key(): Key {
      StockLedger.Key(tenant, warehouse, candidate.product, candidate.batch, Some(candidate.location), candidate.pallet)
    }
  }

  datatype Request = Request(
    tenant: Id, warehouse: Id, product: Id, demand: int, clientDispatch: bool, today: string,
    forcedBatch: Option<Id>, overrideShelfLife: bool)

  /** What the product and the client-warehouse records say about turnover and shelf life. */
  datatype Settings = Settings(
    productPolicy: Option<string>, clientPolicy: Option<string>,
    shelfLifeDays: Option<int>, productPct: Option<string>, clientPct: Option<string>)

  /** Who owns the locations bound to logical warehouses, and whether the tenant has one here. */
  datatype Containment = Containment(owners: map<Id, Id>, tenantHasLogicalWarehouse: bool)

  datatype SelectionError = InvalidDemand | ProductNotFound | PolicyUnresolved

  datatype Outcome = Outcome(
    policy: Policy, allocations: seq<Allocated>, shortfall: nat,
    excludedByShelfLife: seq<Id>, policyBreak: bool, shelfLifeOverridden: bool)

  function ParsePolicy(s: string): Option<Policy> {
    if s == "FEFO" then Some(FEFO)
    else if s == "FIFO" then Some(FIFO)
    else if s == "LIFO" then Some(LIFO)
    else if s == "JIT" then Some(JIT)
    else None
  }

  /** The product's policy, or the client's default when the product names none. */
  function ResolvePolicy(settings: Option<Settings>): Result<Policy, SelectionError> {
    if settings.None? then Failure(ProductNotFound)
    else
      var name := OrElse(settings.value.productPolicy, settings.value.clientPolicy);
      if name.None? || ParsePolicy(name.value).None? then Failure(PolicyUnresolved)
      else Success(ParsePolicy(name.value).value)
  }

  function NameOf(policy: Policy): string {
    match policy
    case FEFO => "FEFO"
    case FIFO => "FIFO"
    case LIFO => "LIFO"
    case JIT => "JIT"
  }

  /** The product names this policy; or it names none and the client does. */
  predicate Names(settings: Settings, policy: Policy) {
    || settings.productPolicy == Some(NameOf(policy))
    || (settings.productPolicy.None? && settings.clientPolicy == Some(NameOf(policy)))
  }

  /** A policy is resolved exactly when it is the one named, so at most one is named. */
  lemma ResolvedIsNamed(settings: Settings)
    ensures forall policy :: Names(settings, policy) <==> ResolvePolicy(Some(settings)) == Success(policy)
    ensures ResolvePolicy(Some(settings)).Failure? ==> ResolvePolicy(Some(settings)).error == PolicyUnresolved
  {
  }

  /** Dates and percentages come out of typed columns. */
  predicate Typed(table: seq<StockRow>, settings: Option<Settings>, today: string) {
    && IsIsoDate(today)
    && (forall r :: r in table && r.candidate.expirationDate.Some? ==> IsIsoDate(r.candidate.expirationDate.value))
    && (settings.Some? ==>
          var pct := OrElse(settings.value.productPct, settings.value.clientPct);
          pct.Some? ==> ReadablePercent(pct.value))
  }

  // ---- The universe -------------------------------------------------------------------------

  predicate Loadable(request: Request, r: StockRow) {
    && r.tenant == request.tenant && r.warehouse == request.warehouse && r.candidate.product == request.product
    && r.candidate.qtyAvailable > 0 && r.batchReleased && r.locationActive
  }

  predicate Contained(request: Request, containment: Containment, r: StockRow) {
    var owned := r.candidate.location in containment.owners;
    if owned && containment.owners[r.candidate.location] != request.tenant then false
    else if containment.tenantHasLogicalWarehouse && !owned then false
    else true
  }

  function InUniverse(request: Request, containment: Containment): StockRow -> bool {
    (r: StockRow) => Loadable(request, r) && Contained(request, containment, r)
  }

  predicate Approved(request: Request, settings: Settings, r: StockRow)
    requires IsIsoDate(request.today)
    requires r.candidate.expirationDate.Some? ==> IsIsoDate(r.candidate.expirationDate.value)
    requires var pct := OrElse(settings.productPct, settings.clientPct); pct.Some? ==> ReadablePercent(pct.value)
  {
    request.clientDispatch ==>
      MeetsMinimumShelfLife(r.candidate.expirationDate, settings.shelfLifeDays,
                            OrElse(settings.productPct, settings.clientPct), request.today)
  }

  /** The rows that become candidates: approved by shelf life, or let through by the override. */
  function Admitted(request: Request, settings: Settings, rows: seq<StockRow>): seq<Candidate>
    requires Typed(rows, Some(settings), request.today)
  {
    if rows == [] then []
    else
      var n := |rows| - 1;
      assert rows[n] in rows;
      Admitted(request, settings, rows[..n])
      + (if Approved(request, settings, rows[n]) || request.overrideShelfLife then [rows[n].candidate] else [])
  }

  function Excluded(request: Request, settings: Settings, rows: seq<StockRow>): seq<Id>
    requires Typed(rows, Some(settings), request.today)
  {
    if rows == [] then []
    else
      var n := |rows| - 1;
      assert rows[n] in rows;
      Excluded(request, settings, rows[..n]) + (if Approved(request, settings, rows[n]) then [] else [rows[n].candidate.balanceId])
  }

  function OfForcedBatch(request: Request): Candidate -> bool {
    (c: Candidate) => request.forcedBatch.None? || c.batch == request.forcedBatch
  }

  /** The candidates a request may consume: in the universe, admitted, reachable, of the forced batch if any. */
  ghost function Scope(table: seq<StockRow>, settings: Settings, containment: Containment, request: Request): seq<Candidate>
    requires Typed(table, Some(settings), request.today)
  {
    var rows := Filter(InUniverse(request, containment), table);
    FilterTyped(table, settings, containment, request);
    var candidates := Admitted(request, settings, rows);
    Filter(OfForcedBatch(request), Filter(ReachableIn(candidates), candidates))
  }

  lemma FilterTyped(table: seq<StockRow>, settings: Settings, containment: Containment, request: Request)
    requires Typed(table, Some(settings), request.today)
    ensures Typed(Filter(InUniverse(request, containment), table), Some(settings), request.today)
  {
    forall r | r in Filter(InUniverse(request, containment), table) ensures r in table {
      FilterMember(InUniverse(request, containment), table, r);
    }
  }

  // ---- The service --------------------------------------------------------------------------

  lemma TypedPart(part: seq<StockRow>, whole: seq<StockRow>, settings: Settings, today: string)
    requires Typed(whole, Some(settings), today) && forall r :: r in part ==> r in whole
    ensures Typed(part, Some(settings), today)
  {
  }

  method AdmitRows(request: Request, settings: Settings, rows: seq<StockRow>)
    returns (candidates: seq<Candidate>, excluded: seq<Id>)
    requires Typed(rows, Some(settings), request.today)
    ensures candidates == Admitted(request, settings, rows)
    ensures excluded == Excluded(request, settings, rows)
  {
    candidates, excluded := [], [];
    for i := 0 to |rows|
      invariant Typed(rows[..i], Some(settings), request.today)
      invariant candidates == Admitted(request, settings, rows[..i])
      invariant excluded == Excluded(request, settings, rows[..i])
    {
      var row := rows[i];
      assert rows[..i + 1][..i] == rows[..i];
      TypedPart(rows[..i + 1], rows, settings, request.today);
      var approved := Approved(request, settings, row);
      if !approved {
        excluded := excluded + [row.candidate.balanceId];
      }
      if approved || request.overrideShelfLife {
        candidates := candidates + [row.candidate];
      }
    }
    assert rows[..|rows|] == rows;
  }

  /** The ordered candidates, consumed greedily. */
  ghost predicate GreedyOutcome(ordered: seq<Candidate>, demand: int, o: Outcome) {
    var takes := Takes(Availables(ordered), demand);
    && |takes| == |ordered|
    && o.allocations == Taken(ordered, takes)
    && o.shortfall == Positive(demand - Sum(takes))
  }

  /** The balances of the universe that shelf life excludes. */
  function ExcludedFrom(table: seq<StockRow>, settings: Settings, containment: Containment, request: Request): seq<Id>
    requires Typed(table, Some(settings), request.today)
  {
    FilterTyped(table, settings, containment, request);
    Excluded(request, settings, Filter(InUniverse(request, containment), table))
  }

  /** The shelf-life exclusions and policy-break marks of an outcome. */
  ghost predicate Flagged(table: seq<StockRow>, settings: Settings, containment: Containment, request: Request, o: Outcome)
    requires Typed(table, Some(settings), request.today)
  {
    && o.policyBreak == request.forcedBatch.Some?
    && o.excludedByShelfLife == ExcludedFrom(table, settings, containment, request)
    && o.shelfLifeOverridden == (request.overrideShelfLife && o.excludedByShelfLife != [])
  }

  /** Loads, filters and restricts: the candidates in scope, and the balances that shelf life excludes. */
  method LoadScope(table: seq<StockRow>, settings: Settings, containment: Containment, request: Request)
    returns (scoped: seq<Candidate>, excluded: seq<Id>)
    requires Typed(table, Some(settings), request.today)
    ensures Typed(Filter(InUniverse(request, containment), table), Some(settings), request.today)
    ensures scoped == Scope(table, settings, containment, request)
    ensures excluded == Excluded(request, settings, Filter(InUniverse(request, containment), table))
  {
    FilterTyped(table, settings, containment, request);
    var rows := Filter(InUniverse(request, containment), table);
    var candidates;
    candidates, excluded := AdmitRows(request, settings, rows);
    var accessible := RestrictToAccessiblePallets(candidates);
    if request.forcedBatch.None? {
      FilterAll(OfForcedBatch(request), accessible);
    }
    scoped := if request.forcedBatch.Some? then Filter(OfForcedBatch(request), accessible) else accessible;
  }

  method SelectInTransaction(table: seq<StockRow>, settings: Option<Settings>, containment: Containment, request: Request)
    returns (r: Result<Outcome, SelectionError>)
    requires Typed(table, settings, request.today)
    ensures request.demand <= 0 <==> r == Failure(InvalidDemand)
    ensures request.demand > 0 && settings.None? ==> r == Failure(ProductNotFound)
    ensures request.demand > 0 && settings.Some? && r.Failure? ==>
      r == Failure(PolicyUnresolved) && forall policy :: !Names(settings.value, policy)
    ensures r.Success? ==>
      && request.demand > 0 && settings.Some? && Names(settings.value, r.value.policy)
      && GreedyOutcome(OrderByPolicy(r.value.policy, Scope(table, settings.value, containment, request)), request.demand, r.value)
      && Flagged(table, settings.value, containment, request, r.value)
  {
    if request.demand <= 0 {
      return Failure(InvalidDemand);
    }
    var policy := ResolvePolicy(settings);
    if settings.Some? {
      ResolvedIsNamed(settings.value);
    }
    if policy.Failure? {
      return Failure(policy.error);
    }
    var scoped, excluded := LoadScope(table, settings.value, containment, request);
    var ordered := OrderByPolicy(policy.value, scoped);
    var allocations, shortfall := AllocateDemand(ordered, request.demand);
    return Success(Outcome(policy.value, allocations, shortfall, excluded, request.forcedBatch.Some?,
                           request.overrideShelfLife && excluded != []));
  }

  // ---- What a selection guarantees ----------------------------------------------------------

  /** One row of the table per balance. */
  ghost predicate OneRowEach(table: seq<StockRow>) {
    forall i, j :: 0 <= i < j < |table| ==>
      table[i].candidate.balanceId != table[j].candidate.balanceId && table[i].Key() != table[j].Key()
  }

  ghost predicate DistinctBalances(cs: seq<Candidate>) {
    forall i, j :: 0 <= i < j < |cs| ==> cs[i].balanceId != cs[j].balanceId
  }

  lemma {:induction false} FilterDistinct(p: Candidate -> bool, cs: seq<Candidate>)
    requires DistinctBalances(cs)
    ensures DistinctBalances(Filter(p, cs))
  {
    if cs != [] {
      FilterDistinct(p, cs[1..]);
      var rest := Filter(p, cs[1..]);
      forall j | 0 <= j < |rest| ensures rest[j].balanceId != cs[0].balanceId {
        FilterMember(p, cs[1..], rest[j]);
      }
    }
  }

  lemma {:induction false} InsertDistinct(chain: Chain, x: Candidate, xs: seq<Candidate>)
    requires DistinctBalances([x] + xs)
    ensures DistinctBalances(Insert(chain, x, xs))
  {
    if xs != [] && ChainVerdict(chain, x, xs[0]) > 0 {
      forall i, j | 0 <= i < j < |[x] + xs[1..]| ensures ([x] + xs[1..])[i].balanceId != ([x] + xs[1..])[j].balanceId {
        assert ([x] + xs)[if i == 0 then 0 else i + 1] == ([x] + xs[1..])[i];
        assert ([x] + xs)[j + 1] == ([x] + xs[1..])[j];
      }
      InsertDistinct(chain, x, xs[1..]);
      InsertMembers(chain, x, xs[1..]);
      var rest := Insert(chain, x, xs[1..]);
      forall j | 0 <= j < |rest| ensures rest[j].balanceId != xs[0].balanceId {
        assert rest[j] in multiset(rest);
        assert rest[j] == x || rest[j] in xs[1..];
        assert ([x] + xs)[0] == x && ([x] + xs)[1] == xs[0];
        if rest[j] in xs[1..] {
          var k :| 0 <= k < |xs[1..]| && xs[1..][k] == rest[j];
          assert ([x] + xs)[k + 2] == rest[j];
        }
      }
    }
  }

  lemma {:induction false} OrderKeepsMembers(chain: Chain, xs: seq<Candidate>)
    ensures multiset(OrderBy(chain, xs)) == multiset(xs)
    ensures DistinctBalances(xs) ==> DistinctBalances(OrderBy(chain, xs))
  {
    OrderIsStableSort(chain, xs);
    StableSortIsPermutation(chain, xs, OrderBy(chain, xs));
    if xs != [] {
      OrderKeepsMembers(chain, xs[1..]);
      var rest := OrderBy(chain, xs[1..]);
      if DistinctBalances(xs) {
        forall j | 0 <= j < |rest| ensures rest[j].balanceId != xs[0].balanceId {
          assert rest[j] in multiset(rest);
          assert rest[j] in xs[1..];
        }
        InsertDistinct(chain, xs[0], rest);
      }
    }
  }

  lemma {:induction false} TakenMembers(cs: seq<Candidate>, ts: seq<nat>)
    requires |cs| == |ts|
    ensures forall i :: 0 <= i < |cs| && ts[i] > 0 ==> Allocated(cs[i], ts[i]) in Taken(cs, ts)
    ensures forall a :: a in Taken(cs, ts) ==> exists i :: 0 <= i < |cs| && ts[i] > 0 && a == Allocated(cs[i], ts[i])
  {
    if cs != [] {
      TakenMembers(cs[1..], ts[1..]);
      forall i | 0 <= i < |cs| && ts[i] > 0 ensures Allocated(cs[i], ts[i]) in Taken(cs, ts) {
        if i > 0 {
          assert cs[1..][i - 1] == cs[i] && ts[1..][i - 1] == ts[i];
        }
      }
      forall a | a in Taken(cs, ts) ensures exists i :: 0 <= i < |cs| && ts[i] > 0 && a == Allocated(cs[i], ts[i]) {
        if a in Taken(cs[1..], ts[1..]) {
          var i :| 0 <= i < |cs[1..]| && ts[1..][i] > 0 && a == Allocated(cs[1..][i], ts[1..][i]);
          assert ts[i + 1] > 0 && a == Allocated(cs[i + 1], ts[i + 1]);
        }
      }
    }
  }

  function Quantities(allocations: seq<Allocated>): seq<int> {
    seq(|allocations|, i requires 0 <= i < |allocations| => allocations[i].qty)
  }

  lemma {:induction false} TakenSum(cs: seq<Candidate>, ts: seq<nat>)
    requires |cs| == |ts|
    ensures Sum(Quantities(Taken(cs, ts))) == Sum(ts)
  {
    if cs != [] {
      TakenSum(cs[1..], ts[1..]);
      var first := if ts[0] > 0 then [Allocated(cs[0], ts[0])] else [];
      var rest := Taken(cs[1..], ts[1..]);
      assert Quantities(first + rest) == Quantities(first) + Quantities(rest);
      SumConcat(Quantities(first), Quantities(rest));
      assert Sum(Quantities(first)) == ts[0] by {
        if ts[0] > 0 {
          assert Quantities(first) == [ts[0] as int];
          assert [ts[0] as int][1..] == [];
        }
      }
    }
  }

  lemma {:induction false} TakenDistinct(cs: seq<Candidate>, ts: seq<nat>)
    requires |cs| == |ts| && DistinctBalances(cs)
    ensures forall i, j :: 0 <= i < j < |Taken(cs, ts)| ==>
              Taken(cs, ts)[i].candidate.balanceId != Taken(cs, ts)[j].candidate.balanceId
  {
    if cs != [] {
      TakenDistinct(cs[1..], ts[1..]);
      TakenMembers(cs[1..], ts[1..]);
      var rest := Taken(cs[1..], ts[1..]);
      forall j | 0 <= j < |rest| ensures rest[j].candidate.balanceId != cs[0].balanceId {
        assert rest[j] in rest;
        var i :| 0 <= i < |cs[1..]| && ts[1..][i] > 0 && rest[j] == Allocated(cs[1..][i], ts[1..][i]);
      }
    }
  }

  lemma {:induction false} AdmittedMembers(request: Request, settings: Settings, rows: seq<StockRow>, c: Candidate)
    requires Typed(rows, Some(settings), request.today)
    ensures c in Admitted(request, settings, rows) <==>
              exists r :: r in rows && r.candidate == c && (Approved(request, settings, r) || request.overrideShelfLife)
  {
    if rows != [] {
      var n := |rows| - 1;
      AdmittedMembers(request, settings, rows[..n], c);
      assert rows == rows[..n] + [rows[n]];
    }
  }

  lemma {:induction false} AdmittedDistinct(request: Request, settings: Settings, rows: seq<StockRow>)
    requires Typed(rows, Some(settings), request.today) && OneRowEach(rows)
    ensures DistinctBalances(Admitted(request, settings, rows))
  {
    if rows != [] {
      var n := |rows| - 1;
      AdmittedDistinct(request, settings, rows[..n]);
      var rest := Admitted(request, settings, rows[..n]);
      forall j | 0 <= j < |rest| ensures rest[j].balanceId != rows[n].candidate.balanceId {
        AdmittedMembers(request, settings, rows[..n], rest[j]);
      }
    }
  }

  lemma {:induction false} FilterOneRowEach(p: StockRow -> bool, table: seq<StockRow>)
    requires OneRowEach(table)
    ensures OneRowEach(Filter(p, table))
  {
    if table != [] {
      FilterOneRowEach(p, table[1..]);
      var rest := Filter(p, table[1..]);
      forall j | 0 <= j < |rest|
        ensures rest[j].candidate.balanceId != table[0].candidate.balanceId && rest[j].Key() != table[0].Key()
      {
        FilterMember(p, table[1..], rest[j]);
      }
    }
  }

  /** Available released stock of the product at an active location of the warehouse, out of reach of other owners. */
  predicate OnHand(containment: Containment, request: Request, r: StockRow) {
    && r.tenant == request.tenant && r.warehouse == request.warehouse && r.candidate.product == request.product
    && r.candidate.qtyAvailable > 0 && r.batchReleased && r.locationActive
    && (r.candidate.location in containment.owners ==> containment.owners[r.candidate.location] == request.tenant)
    && (containment.tenantHasLogicalWarehouse ==> r.candidate.location in containment.owners)
  }

  /** Not for a client, or with enough of its shelf life left; the product's percentage goes before the client's. */
  predicate FreshEnough(settings: Settings, request: Request, r: StockRow)
    requires Typed([r], Some(settings), request.today)
  {
    assert r in [r];
    request.clientDispatch ==>
      MeetsMinimumShelfLife(r.candidate.expirationDate, settings.shelfLifeDays,
                            if settings.productPct.Some? then settings.productPct else settings.clientPct, request.today)
  }

  ghost predicate Candidates(table: seq<StockRow>, settings: Settings, containment: Containment, request: Request, r: StockRow)
    requires Typed(table, Some(settings), request.today)
  {
    && r in table && OnHand(containment, request, r)
    && (FreshEnough(settings, request, r) || request.overrideShelfLife)
  }

  /** Who may be consumed, said of the table itself. */
  ghost predicate MayConsume(table: seq<StockRow>, settings: Settings, containment: Containment, request: Request, r: StockRow)
    requires Typed(table, Some(settings), request.today)
  {
    && Candidates(table, settings, containment, request, r)
    && (request.forcedBatch.Some? ==> r.candidate.batch == request.forcedBatch)
    && (r.candidate.accessPolicy == Some("LIFO_PHYSICAL") ==>
          forall q :: Candidates(table, settings, containment, request, q)
            && q.candidate.accessPolicy == Some("LIFO_PHYSICAL") && q.candidate.channelKey == r.candidate.channelKey
            ==> CompareText(q.candidate.entryDate, r.candidate.entryDate) <= 0)
  }

  /** The candidates that are admitted, before reachability and the forced batch are looked at. */
  ghost function AdmittedOf(table: seq<StockRow>, settings: Settings, containment: Containment, request: Request): seq<Candidate>
    requires Typed(table, Some(settings), request.today)
  {
    FilterTyped(table, settings, containment, request);
    Admitted(request, settings, Filter(InUniverse(request, containment), table))
  }

  lemma AdmittedAreCandidates(table: seq<StockRow>, settings: Settings, containment: Containment, request: Request)
    requires Typed(table, Some(settings), request.today)
    ensures forall c :: c in AdmittedOf(table, settings, containment, request) <==>
              exists r :: Candidates(table, settings, containment, request, r) && r.candidate == c
  {
    var rows := Filter(InUniverse(request, containment), table);
    FilterTyped(table, settings, containment, request);
    forall r ensures r in rows <==> r in table && OnHand(containment, request, r) {
      FilterMember(InUniverse(request, containment), table, r);
    }
    forall r | r in rows ensures Approved(request, settings, r) <==> FreshEnough(settings, request, r) {
    }
    var admitted := AdmittedOf(table, settings, containment, request);
    forall c ensures c in admitted <==> exists r :: Candidates(table, settings, containment, request, r) && r.candidate == c {
      AdmittedMembers(request, settings, rows, c);
      if c in admitted {
        var r :| r in rows && r.candidate == c && (Approved(request, settings, r) || request.overrideShelfLife);
        assert Candidates(table, settings, containment, request, r);
      }
      if r :| Candidates(table, settings, containment, request, r) && r.candidate == c {
        assert r in rows;
      }
    }
  }

  lemma ScopeFromAdmitted(table: seq<StockRow>, settings: Settings, containment: Containment, request: Request, c: Candidate)
    requires Typed(table, Some(settings), request.today)
    ensures var admitted := AdmittedOf(table, settings, containment, request);
            c in Scope(table, settings, containment, request) <==>
              c in admitted && Reachable(admitted, c) && (request.forcedBatch.Some? ==> c.batch == request.forcedBatch)
  {
    var admitted := AdmittedOf(table, settings, containment, request);
    FilterMember(ReachableIn(admitted), admitted, c);
    FilterMember(OfForcedBatch(request), Filter(ReachableIn(admitted), admitted), c);
  }

  lemma ReachableAmongCandidates(
    table: seq<StockRow>, settings: Settings, containment: Containment, request: Request, r: StockRow)
    requires Typed(table, Some(settings), request.today)
    requires Candidates(table, settings, containment, request, r)
    ensures MayConsume(table, settings, containment, request, r) <==>
            && Reachable(AdmittedOf(table, settings, containment, request), r.candidate)
            && (request.forcedBatch.Some? ==> r.candidate.batch == request.forcedBatch)
  {
    var admitted := AdmittedOf(table, settings, containment, request);
    AdmittedAreCandidates(table, settings, containment, request);
    if Reachable(admitted, r.candidate) {
      forall q | Candidates(table, settings, containment, request, q) ensures q.candidate in admitted {
      }
    } else {
      var d :| d in admitted && LifoPhysical(d) && d.channelKey == r.candidate.channelKey
               && !(CompareText(d.entryDate, r.candidate.entryDate) <= 0);
      var q :| Candidates(table, settings, containment, request, q) && q.candidate == d;
    }
  }

  /** The scope is the candidates of the rows that may be consumed, each balance once. */
  lemma ScopeMembers(table: seq<StockRow>, settings: Settings, containment: Containment, request: Request)
    requires Typed(table, Some(settings), request.today)
    ensures forall c :: c in Scope(table, settings, containment, request) <==>
              exists r :: MayConsume(table, settings, containment, request, r) && r.candidate == c
    ensures OneRowEach(table) ==> DistinctBalances(Scope(table, settings, containment, request))
  {
    AdmittedAreCandidates(table, settings, containment, request);
    forall c
      ensures c in Scope(table, settings, containment, request) <==>
              exists r :: MayConsume(table, settings, containment, request, r) && r.candidate == c
    {
      ScopeFromAdmitted(table, settings, containment, request, c);
      if c in Scope(table, settings, containment, request) {
        var r :| Candidates(table, settings, containment, request, r) && r.candidate == c;
        ReachableAmongCandidates(table, settings, containment, request, r);
      }
      if r :| MayConsume(table, settings, containment, request, r) && r.candidate == c {
        ReachableAmongCandidates(table, settings, containment, request, r);
      }
    }
    if OneRowEach(table) {
      ScopeIsDistinct(table, settings, containment, request);
    }
  }

  lemma ScopeIsDistinct(table: seq<StockRow>, settings: Settings, containment: Containment, request: Request)
    requires Typed(table, Some(settings), request.today) && OneRowEach(table)
    ensures DistinctBalances(Scope(table, settings, containment, request))
  {
    var rows := Filter(InUniverse(request, containment), table);
    var admitted := AdmittedOf(table, settings, containment, request);
    FilterTyped(table, settings, containment, request);
    FilterOneRowEach(InUniverse(request, containment), table);
    AdmittedDistinct(request, settings, rows);
    FilterDistinct(ReachableIn(admitted), admitted);
    FilterDistinct(OfForcedBatch(request), Filter(ReachableIn(admitted), admitted));
  }

  /** Shelf life excludes exactly the balances on hand that are not fresh enough. */
  lemma ExcludedExactly(table: seq<StockRow>, settings: Settings, containment: Containment, request: Request, balance: Id)
    requires Typed(table, Some(settings), request.today)
    ensures balance in ExcludedFrom(table, settings, containment, request) <==>
            exists r :: r in table && OnHand(containment, request, r) && !FreshEnough(settings, request, r)
              && r.candidate.balanceId == balance
  {
    var rows := Filter(InUniverse(request, containment), table);
    FilterTyped(table, settings, containment, request);
    ExcludedMembers(request, settings, rows, balance);
    forall r ensures r in rows <==> r in table && OnHand(containment, request, r) {
      FilterMember(InUniverse(request, containment), table, r);
    }
  }

  lemma {:induction false} ExcludedMembers(request: Request, settings: Settings, rows: seq<StockRow>, balance: Id)
    requires Typed(rows, Some(settings), request.today)
    ensures balance in Excluded(request, settings, rows) <==>
            exists r :: r in rows && !FreshEnough(settings, request, r) && r.candidate.balanceId == balance
  {
    if rows != [] {
      var n := |rows| - 1;
      ExcludedMembers(request, settings, rows[..n], balance);
      assert rows == rows[..n] + [rows[n]];
      assert Approved(request, settings, rows[n]) <==> FreshEnough(settings, request, rows[n]);
    }
  }

  /** Something from each balance at most once, of what may be consumed, and no more than it has. */
  ghost predicate Feasible(scope: seq<Candidate>, allocations: seq<Allocated>) {
    && (forall a :: a in allocations ==> a.candidate in scope && 0 < a.qty <= a.candidate.qtyAvailable)
    && (forall i, j :: 0 <= i < j < |allocations| ==>
          allocations[i].candidate.balanceId != allocations[j].candidate.balanceId)
  }

  /** Whatever goes before something that is taken has been used up. */
  ghost predicate UsedUpFirst(policy: Policy, scope: seq<Candidate>, allocations: seq<Allocated>) {
    forall a, c :: a in allocations && c in scope && GoesBefore(policy, c, a.candidate)
      ==> Allocated(c, c.qtyAvailable) in allocations
  }

  /**
   What one selection promises: what is taken comes from distinct balances that may be consumed, at
   most what each one has; the total is the smaller of the demand and all there is; and nothing is
   taken from a candidate while one that goes before it in the policy is not used up.
   */
  ghost predicate PolicyOptimal(
    policy: Policy, scope: seq<Candidate>, demand: int, allocations: seq<Allocated>, shortfall: nat)
  {
    && Feasible(scope, allocations)
    && Sum(Quantities(allocations)) == Min(demand, Sum(Availables(scope)))
    && Sum(Quantities(allocations)) + shortfall == demand
    && UsedUpFirst(policy, scope, allocations)
  }

  lemma {:induction false} InsertAddsUp(chain: Chain, x: Candidate, xs: seq<Candidate>)
    ensures Sum(Availables(Insert(chain, x, xs))) == x.qtyAvailable + Sum(Availables(xs))
  {
    assert Availables([x] + xs)[1..] == Availables(xs);
    if xs != [] && ChainVerdict(chain, x, xs[0]) > 0 {
      InsertAddsUp(chain, x, xs[1..]);
      var rest := Insert(chain, x, xs[1..]);
      assert Availables([xs[0]] + rest)[1..] == Availables(rest);
      assert Availables(xs)[1..] == Availables(xs[1..]);
    }
  }

  lemma {:induction false} OrderAddsUp(chain: Chain, xs: seq<Candidate>)
    ensures Sum(Availables(OrderBy(chain, xs))) == Sum(Availables(xs))
  {
    if xs != [] {
      OrderAddsUp(chain, xs[1..]);
      InsertAddsUp(chain, xs[0], OrderBy(chain, xs[1..]));
      assert Availables(xs)[1..] == Availables(xs[1..]);
    }
  }

  lemma OrderHasSameMembers(chain: Chain, xs: seq<Candidate>)
    ensures forall c :: c in OrderBy(chain, xs) <==> c in xs
  {
    OrderKeepsMembers(chain, xs);
    forall c ensures c in OrderBy(chain, xs) <==> c in xs {
      assert (c in OrderBy(chain, xs) <==> c in multiset(OrderBy(chain, xs))) && (c in xs <==> c in multiset(xs));
    }
  }

  /** In a sorted list, what strictly precedes comes earlier. */
  lemma StrictlyBefore(chain: Chain, ordered: seq<Candidate>, i: nat, j: nat)
    requires Sorted(chain, ordered) && i < |ordered| && j < |ordered| && ChainVerdict(chain, ordered[i], ordered[j]) < 0
    ensures i < j
  {
    ChainPreorder(chain, ordered[i], ordered[j], ordered[i]);
  }

  lemma PrecedingAreUsedUp(chain: Chain, ordered: seq<Candidate>, demand: int, c: Candidate, a: Allocated)
    requires Sorted(chain, ordered)
    requires forall d :: d in ordered ==> d.qtyAvailable > 0
    requires |Takes(Availables(ordered), demand)| == |ordered|
    requires a in Taken(ordered, Takes(Availables(ordered), demand))
    requires c in ordered && ChainVerdict(chain, c, a.candidate) < 0
    ensures Allocated(c, c.qtyAvailable) in Taken(ordered, Takes(Availables(ordered), demand))
  {
    var takes := Takes(Availables(ordered), demand);
    TakenMembers(ordered, takes);
    var j :| 0 <= j < |ordered| && takes[j] > 0 && a == Allocated(ordered[j], takes[j]);
    var i :| 0 <= i < |ordered| && ordered[i] == c;
    StrictlyBefore(chain, ordered, i, j);
    EarlierAreUsedUp(Availables(ordered), demand, i, j);
    assert takes[i] == c.qtyAvailable;
  }

  lemma TakenWithinBounds(ordered: seq<Candidate>, demand: int)
    ensures |Takes(Availables(ordered), demand)| == |ordered|
    ensures forall a :: a in Taken(ordered, Takes(Availables(ordered), demand)) ==>
              a.candidate in ordered && 0 < a.qty <= Positive(a.candidate.qtyAvailable)
  {
    TakesAreFeasible(Availables(ordered), demand);
    TakenMembers(ordered, Takes(Availables(ordered), demand));
  }

  /** Ordering by the policy and consuming greedily is policy-optimal. */
  lemma GreedyIsPolicyOptimal(policy: Policy, scope: seq<Candidate>, demand: int)
    requires DistinctBalances(scope) && demand > 0
    requires forall c :: c in scope ==> c.qtyAvailable > 0
    ensures var ordered := OrderByPolicy(policy, scope);
            var takes := Takes(Availables(ordered), demand);
            && |takes| == |ordered|
            && PolicyOptimal(policy, scope, demand, Taken(ordered, takes), Positive(demand - Sum(takes)))
  {
    var ordered := OrderByPolicy(policy, scope);
    GreedyTotals(ChainOf(policy), scope, demand);
    GreedyIsFeasible(ChainOf(policy), scope, demand);
    OrderIsStableSort(ChainOf(policy), scope);
    OrderHasSameMembers(ChainOf(policy), scope);
    PrecedenceRespected(policy, scope, ordered, demand);
  }

  lemma GreedyIsFeasible(chain: Chain, scope: seq<Candidate>, demand: int)
    requires DistinctBalances(scope) && forall c :: c in scope ==> c.qtyAvailable > 0
    ensures var ordered := OrderBy(chain, scope);
            var takes := Takes(Availables(ordered), demand);
            |takes| == |ordered| && Feasible(scope, Taken(ordered, takes))
  {
    var ordered := OrderBy(chain, scope);
    OrderHasSameMembers(chain, scope);
    OrderKeepsMembers(chain, scope);
    TakenWithinBounds(ordered, demand);
    TakenDistinct(ordered, Takes(Availables(ordered), demand));
  }

  lemma GreedyTotals(chain: Chain, scope: seq<Candidate>, demand: int)
    requires demand > 0 && forall c :: c in scope ==> c.qtyAvailable > 0
    ensures var ordered := OrderBy(chain, scope);
            var takes := Takes(Availables(ordered), demand);
            && |takes| == |ordered|
            && Sum(Quantities(Taken(ordered, takes))) == Sum(takes) == Min(demand, Sum(Availables(scope)))
  {
    var ordered := OrderBy(chain, scope);
    TakesAreFeasible(Availables(ordered), demand);
    TakenSum(ordered, Takes(Availables(ordered), demand));
    OrderHasSameMembers(chain, scope);
    assert Usable(Availables(ordered)) == Availables(ordered);
    OrderAddsUp(chain, scope);
  }

  lemma PrecedenceRespected(policy: Policy, scope: seq<Candidate>, ordered: seq<Candidate>, demand: int)
    requires Sorted(ChainOf(policy), ordered)
    requires forall c :: c in scope <==> c in ordered
    requires forall c :: c in scope ==> c.qtyAvailable > 0
    requires |Takes(Availables(ordered), demand)| == |ordered|
    ensures UsedUpFirst(policy, scope, Taken(ordered, Takes(Availables(ordered), demand)))
  {
    forall a, c | a in Taken(ordered, Takes(Availables(ordered), demand)) && c in scope
                  && GoesBefore(policy, c, a.candidate)
      ensures Allocated(c, c.qtyAvailable) in Taken(ordered, Takes(Availables(ordered), demand))
    {
      PolicyIsItsDictionaryOrder(policy, c, a.candidate);
      PrecedingAreUsedUp(ChainOf(policy), ordered, demand, c, a);
    }
  }

  /** What is in scope is there, and each balance only once. */
  lemma ScopeIsAvailable(table: seq<StockRow>, settings: Settings, containment: Containment, request: Request)
    requires Typed(table, Some(settings), request.today) && OneRowEach(table)
    ensures forall c :: c in Scope(table, settings, containment, request) ==> c.qtyAvailable > 0
    ensures DistinctBalances(Scope(table, settings, containment, request))
  {
    ScopeMembers(table, settings, containment, request);
    forall c | c in Scope(table, settings, containment, request) ensures c.qtyAvailable > 0 {
      var r :| MayConsume(table, settings, containment, request, r) && r.candidate == c;
    }
  }

  /** End to end, a selection is policy-optimal over exactly the rows that may be consumed. */
  lemma SelectionIsPolicyOptimal(
    table: seq<StockRow>, settings: Settings, containment: Containment, request: Request, policy: Policy, o: Outcome)
    requires Typed(table, Some(settings), request.today) && OneRowEach(table) && request.demand > 0
    requires GreedyOutcome(OrderByPolicy(policy, Scope(table, settings, containment, request)), request.demand, o)
    ensures PolicyOptimal(policy, Scope(table, settings, containment, request), request.demand, o.allocations, o.shortfall)
  {
    ScopeIsAvailable(table, settings, containment, request);
    OutcomeIsPolicyOptimal(policy, Scope(table, settings, containment, request), request.demand, o);
  }

  lemma OutcomeIsPolicyOptimal(policy: Policy, scope: seq<Candidate>, demand: int, o: Outcome)
    requires DistinctBalances(scope) && demand > 0 && forall c :: c in scope ==> c.qtyAvailable > 0
    requires GreedyOutcome(OrderByPolicy(policy, scope), demand, o)
    ensures PolicyOptimal(policy, scope, demand, o.allocations, o.shortfall)
  {
    GreedyIsPolicyOptimal(policy, scope, demand);
  }
}
