/** Approval limits and the exception workflow: who may decide, in how many steps, and what stays decided. */
module Approval {
  import opened Common

  // ---- Limits -------------------------------------------------------------------------------

  /** A limit of `None` is unlimited. */
  datatype Authority = Authority(maxQty: Option<int>, maxValue: Option<int>)

  predicate Within(limit: Option<int>, amount: Option<int>) {
    amount.None? || limit.None? || amount.value <= limit.value
  }

  predicate AuthorityCovers(a: Authority, qty: Option<int>, value: Option<int>) {
    Within(a.maxQty, qty) && Within(a.maxValue, value)
  }

  predicate ValidLimits(rows: seq<Authority>) {
    forall r :: r in rows ==> (r.maxQty.Some? ==> r.maxQty.value >= 0) && (r.maxValue.Some? ==> r.maxValue.value >= 0)
  }

  ghost predicate SomeRowAllowsQty(rows: seq<Authority>, qty: Option<int>) {
    exists r :: r in rows && (qty.None? || r.maxQty.None? || qty.value <= r.maxQty.value)
  }

  ghost predicate SomeRowAllowsValue(rows: seq<Authority>, value: Option<int>) {
    exists r :: r in rows && (value.None? || r.maxValue.None? || value.value <= r.maxValue.value)
  }

  /** The folded limits allow an amount exactly when some configured row does, quantity and value apart. */
  ghost predicate FoldOf(rows: seq<Authority>, a: Authority) {
    && (forall qty: Option<int> :: Within(a.maxQty, qty) <==> SomeRowAllowsQty(rows, qty))
    && (forall value: Option<int> :: Within(a.maxValue, value) <==> SomeRowAllowsValue(rows, value))
  }

  function Wider(running: Option<int>, limit: Option<int>): Option<int> {
    if limit.None? then None
    else if running.Some? then Some(if running.value < limit.value then limit.value else running.value)
    else None
  }

  /** The running maximum over a list of limits, starting from zero. */
  function Widest(limits: seq<Option<int>>): Option<int> {
    if limits == [] then Some(0) else Wider(Widest(limits[..|limits| - 1]), limits[|limits| - 1])
  }

  function Qtys(rows: seq<Authority>): seq<Option<int>> {
    seq(|rows|, i requires 0 <= i < |rows| => rows[i].maxQty)
  }

  function Values(rows: seq<Authority>): seq<Option<int>> {
    seq(|rows|, i requires 0 <= i < |rows| => rows[i].maxValue)
  }

  function Folded(rows: seq<Authority>): Option<Authority> {
    if rows == [] then None else Some(Authority(Widest(Qtys(rows)), Widest(Values(rows))))
  }

  /** The user's authority: the widest limit over all the rows that apply, or nothing when none does. */
  method GetAuthority(rows: seq<Authority>) returns (r: Option<Authority>)
    ensures r == Folded(rows)
  {
    if rows == [] {
      return None;
    }
    var maxQty: Option<int>, maxValue: Option<int> := Some(0), Some(0);
    for i := 0 to |rows|
      invariant maxQty == Widest(Qtys(rows)[..i])
      invariant maxValue == Widest(Values(rows)[..i])
    {
      var row := rows[i];
      assert Qtys(rows)[..i + 1][..i] == Qtys(rows)[..i] && Values(rows)[..i + 1][..i] == Values(rows)[..i];
      if row.maxQty.None? {
        maxQty := None;
      } else if maxQty.Some? {
        maxQty := Some(if maxQty.value < row.maxQty.value then row.maxQty.value else maxQty.value);
      }
      if row.maxValue.None? {
        maxValue := None;
      } else if maxValue.Some? {
        maxValue := Some(if maxValue.value < row.maxValue.value then row.maxValue.value else maxValue.value);
      }
    }
    assert Qtys(rows)[..|rows|] == Qtys(rows) && Values(rows)[..|rows|] == Values(rows);
    return Some(Authority(maxQty, maxValue));
  }

  lemma {:induction false} WidestAllows(limits: seq<Option<int>>, amount: int)
    requires forall l :: l in limits && l.Some? ==> l.value >= 0
    ensures Within(Widest(limits), Some(amount)) <==> amount <= 0 || exists i :: 0 <= i < |limits| && Within(limits[i], Some(amount))
    ensures Widest(limits).Some? ==> Widest(limits).value >= 0
  {
    if limits != [] {
      var n := |limits| - 1;
      WidestAllows(limits[..n], amount);
      if i :| 0 <= i < n && Within(limits[..n][i], Some(amount)) {
        assert Within(limits[i], Some(amount));
      }
      if Within(limits[n], Some(amount)) {
        assert limits[n] in limits;
      }
      if amount > 0 && Within(Widest(limits), Some(amount)) {
        if i :| 0 <= i < n && Within(limits[..n][i], Some(amount)) {
          assert Within(limits[i], Some(amount));
        } else {
          assert Within(limits[n], Some(amount));
        }
      }
      if i :| 0 <= i < |limits| && Within(limits[i], Some(amount)) {
        if i < n {
          assert Within(limits[..n][i], Some(amount));
        }
      }
    }
  }

  /** Folding limits, with null as unlimited, keeps exactly what some row allows in each dimension. */
  lemma FoldingKeepsWhatSomeRowAllows(rows: seq<Authority>)
    requires ValidLimits(rows) && rows != []
    ensures FoldOf(rows, Folded(rows).value)
  {
    var a := Folded(rows).value;
    forall l | l in Qtys(rows) && l.Some? ensures l.value >= 0 {
      var i :| 0 <= i < |rows| && Qtys(rows)[i] == l;
      assert rows[i] in rows;
    }
    forall l | l in Values(rows) && l.Some? ensures l.value >= 0 {
      var i :| 0 <= i < |rows| && Values(rows)[i] == l;
      assert rows[i] in rows;
    }
    assert rows[0] in rows;
    forall qty: Option<int> ensures Within(a.maxQty, qty) <==> SomeRowAllowsQty(rows, qty) {
      if qty.Some? {
        WidestAllows(Qtys(rows), qty.value);
        if Within(a.maxQty, qty) && qty.value > 0 {
          var i :| 0 <= i < |rows| && Within(Qtys(rows)[i], qty);
          assert rows[i] in rows && Within(rows[i].maxQty, qty);
        } else if Within(a.maxQty, qty) {
          assert Within(rows[0].maxQty, qty);
        }
        if SomeRowAllowsQty(rows, qty) {
          var r :| r in rows && Within(r.maxQty, qty);
          var i :| 0 <= i < |rows| && rows[i] == r;
          assert Within(Qtys(rows)[i], qty);
        }
      } else {
        assert Within(rows[0].maxQty, qty);
      }
    }
    forall value: Option<int> ensures Within(a.maxValue, value) <==> SomeRowAllowsValue(rows, value) {
      if value.Some? {
        WidestAllows(Values(rows), value.value);
        if Within(a.maxValue, value) && value.value > 0 {
          var i :| 0 <= i < |rows| && Within(Values(rows)[i], value);
          assert rows[i] in rows && Within(rows[i].maxValue, value);
        } else if Within(a.maxValue, value) {
          assert Within(rows[0].maxValue, value);
        }
        if SomeRowAllowsValue(rows, value) {
          var r :| r in rows && Within(r.maxValue, value);
          var i :| 0 <= i < |rows| && rows[i] == r;
          assert Within(Values(rows)[i], value);
        }
      } else {
        assert Within(rows[0].maxValue, value);
      }
    }
  }

  /** Whether an exception escalates: no configured authority, or one the folded limits do not cover. */
  predicate ExceedsAll(configured: seq<Authority>, qty: Option<int>, value: Option<int>) {
    Folded(configured).None? || !AuthorityCovers(Folded(configured).value, qty, value)
  }

  /** It escalates exactly when no row allows its quantity or no row allows its value. */
  lemma EscalationRule(configured: seq<Authority>, qty: Option<int>, value: Option<int>)
    requires ValidLimits(configured)
    ensures ExceedsAll(configured, qty, value) <==>
            configured == [] || !SomeRowAllowsQty(configured, qty) || !SomeRowAllowsValue(configured, value)
    ensures (exists r :: r in configured && AuthorityCovers(r, qty, value)) ==> !ExceedsAll(configured, qty, value)
  {
    if configured != [] {
      FoldingKeepsWhatSomeRowAllows(configured);
    }
  }

  // ---- The documented rule: escalate what exceeds every configured authority ----------------

  ghost predicate SomeRowCovers(rows: seq<Authority>, qty: Option<int>, value: Option<int>) {
    exists r :: r in rows
      && (qty.None? || r.maxQty.None? || qty.value <= r.maxQty.value)
      && (value.None? || r.maxValue.None? || value.value <= r.maxValue.value)
  }

  ghost predicate MeetsTheRule(rows: seq<Authority>) {
    forall qty: Option<int>, value: Option<int> :: ExceedsAll(rows, qty, value) <==> !SomeRowCovers(rows, qty, value)
  }

  predicate Broader(a: Option<int>, b: Option<int>) {
    a.None? || (b.Some? && b.value <= a.value)
  }

  /** At least as wide in both limits. */
  predicate AtLeastAsWide(d: Authority, r: Authority) {
    Broader(d.maxQty, r.maxQty) && Broader(d.maxValue, r.maxValue)
  }

  /** One authority is at least as wide as every other, so that folding mixes nothing. */
  predicate HasWidest(rows: seq<Authority>) {
    exists d :: d in rows && forall r :: r in rows ==> AtLeastAsWide(d, r)
  }

  /** The largest finite limit. */
  function Ceiling(limits: seq<Option<int>>): int {
    if limits == [] then 0
    else
      var rest := Ceiling(limits[1..]);
      if limits[0].Some? && limits[0].value > rest then limits[0].value else rest
  }

  lemma {:induction false} CeilingIsReached(limits: seq<Option<int>>)
    requires forall l :: l in limits && l.Some? ==> l.value >= 0
    ensures forall l :: l in limits && l.Some? ==> l.value <= Ceiling(limits)
    ensures Ceiling(limits) == 0 || Some(Ceiling(limits)) in limits
  {
    if limits != [] {
      CeilingIsReached(limits[1..]);
      assert limits == [limits[0]] + limits[1..];
    }
  }

  /** An amount that only the widest limits allow: above every finite one when some limit is unlimited. */
  function Extreme(limits: seq<Option<int>>): int {
    if None in limits then Ceiling(limits) + 1 else Ceiling(limits)
  }

  lemma ExtremeNeedsTheWidest(limits: seq<Option<int>>)
    requires limits != [] && forall l :: l in limits && l.Some? ==> l.value >= 0
    ensures forall l :: l in limits && Within(l, Some(Extreme(limits))) ==> forall m :: m in limits ==> Broader(l, m)
    ensures exists l :: l in limits && Within(l, Some(Extreme(limits)))
  {
    CeilingIsReached(limits);
    if None !in limits {
      assert limits[0] in limits && limits[0].Some?;
      assert Ceiling(limits) == 0 ==> Within(limits[0], Some(Extreme(limits)));
    }
  }

  lemma LimitsOfRows(rows: seq<Authority>)
    requires ValidLimits(rows)
    ensures forall r :: r in rows ==> r.maxQty in Qtys(rows) && r.maxValue in Values(rows)
    ensures forall l :: l in Qtys(rows) ==> (l.Some? ==> l.value >= 0) && exists r :: r in rows && r.maxQty == l
    ensures forall l :: l in Values(rows) ==> (l.Some? ==> l.value >= 0) && exists r :: r in rows && r.maxValue == l
  {
    forall r | r in rows ensures r.maxQty in Qtys(rows) && r.maxValue in Values(rows) {
      var i :| 0 <= i < |rows| && rows[i] == r;
      assert Qtys(rows)[i] == r.maxQty && Values(rows)[i] == r.maxValue;
    }
    forall l | l in Qtys(rows) ensures exists r :: r in rows && r.maxQty == l {
      var i :| 0 <= i < |rows| && Qtys(rows)[i] == l;
      assert rows[i] in rows;
    }
    forall l | l in Values(rows) ensures exists r :: r in rows && r.maxValue == l {
      var i :| 0 <= i < |rows| && Values(rows)[i] == l;
      assert rows[i] in rows;
    }
  }

  /** A row that covers the extreme amounts is at least as wide as every other. */
  lemma CoveringTheExtremes(rows: seq<Authority>, d: Authority)
    requires ValidLimits(rows) && d in rows && AuthorityCovers(d, Some(Extreme(Qtys(rows))), Some(Extreme(Values(rows))))
    ensures forall r :: r in rows ==> AtLeastAsWide(d, r)
  {
    LimitsOfRows(rows);
    ExtremeNeedsTheWidest(Qtys(rows));
    ExtremeNeedsTheWidest(Values(rows));
  }

  lemma ExtremesAreAllowed(rows: seq<Authority>)
    requires ValidLimits(rows) && rows != []
    ensures SomeRowAllowsQty(rows, Some(Extreme(Qtys(rows)))) && SomeRowAllowsValue(rows, Some(Extreme(Values(rows))))
  {
    LimitsOfRows(rows);
    ExtremeNeedsTheWidest(Qtys(rows));
    ExtremeNeedsTheWidest(Values(rows));
  }

  lemma WidestCoversWhatSomeAllow(rows: seq<Authority>, qty: Option<int>, value: Option<int>)
    requires HasWidest(rows) && SomeRowAllowsQty(rows, qty) && SomeRowAllowsValue(rows, value)
    ensures SomeRowCovers(rows, qty, value)
  {
    var d :| d in rows && forall r :: r in rows ==> AtLeastAsWide(d, r);
    var q :| q in rows && Within(q.maxQty, qty);
    var v :| v in rows && Within(v.maxValue, value);
    assert AtLeastAsWide(d, q) && AtLeastAsWide(d, v);
    assert AuthorityCovers(d, qty, value);
  }

  /** A configuration meets the documented rule on all amounts if and only if one authority is at least as wide as every other, or there is none. */
  lemma RuleIsMetExactly(rows: seq<Authority>)
    requires ValidLimits(rows)
    ensures MeetsTheRule(rows) <==> rows == [] || HasWidest(rows)
  {
    if rows != [] && MeetsTheRule(rows) {
      var qty, value := Some(Extreme(Qtys(rows))), Some(Extreme(Values(rows)));
      ExtremesAreAllowed(rows);
      EscalationRule(rows, qty, value);
      assert SomeRowCovers(rows, qty, value);
      var d :| d in rows && AuthorityCovers(d, qty, value);
      CoveringTheExtremes(rows, d);
    }
    if rows == [] || HasWidest(rows) {
      forall qty: Option<int>, value: Option<int> ensures ExceedsAll(rows, qty, value) <==> !SomeRowCovers(rows, qty, value) {
        EscalationRule(rows, qty, value);
        if !ExceedsAll(rows, qty, value) {
          WidestCoversWhatSomeAllow(rows, qty, value);
        }
      }
    }
  }

  /** Two authorities, one wide in quantity and the other in value. */
  const WIDE_IN_QTY := Authority(Some(10), Some(1))

  const WIDE_IN_VALUE := Authority(Some(1), Some(10))

  lemma TwoRows(rows: seq<Authority>)
    requires rows == [WIDE_IN_QTY, WIDE_IN_VALUE]
    ensures forall r :: r in rows <==> r == WIDE_IN_QTY || r == WIDE_IN_VALUE
  {
    assert rows[0] == WIDE_IN_QTY && rows[1] == WIDE_IN_VALUE;
  }

  lemma FivesDoNotEscalate(rows: seq<Authority>)
    requires rows == [WIDE_IN_QTY, WIDE_IN_VALUE]
    ensures ValidLimits(rows) && !ExceedsAll(rows, Some(5), Some(5))
  {
    TwoRows(rows);
    assert WIDE_IN_QTY in rows && Within(WIDE_IN_QTY.maxQty, Some(5));
    assert WIDE_IN_VALUE in rows && Within(WIDE_IN_VALUE.maxValue, Some(5));
    EscalationRule(rows, Some(5), Some(5));
  }

  lemma NoneCoversFives(rows: seq<Authority>)
    requires rows == [WIDE_IN_QTY, WIDE_IN_VALUE]
    ensures !SomeRowCovers(rows, Some(5), Some(5))
  {
    TwoRows(rows);
  }

  /** With them, neither covers five units worth five, and yet such an exception does not escalate. */
  lemma FoldedLimitsMixRows(rows: seq<Authority>)
    requires rows == [WIDE_IN_QTY, WIDE_IN_VALUE]
    ensures ValidLimits(rows) && !HasWidest(rows)
    ensures !SomeRowCovers(rows, Some(5), Some(5)) && !ExceedsAll(rows, Some(5), Some(5))
  {
    FivesDoNotEscalate(rows);
    NoneCoversFives(rows);
    TwoRows(rows);
    assert WIDE_IN_QTY in rows && WIDE_IN_VALUE in rows;
    assert !AtLeastAsWide(WIDE_IN_QTY, WIDE_IN_VALUE) && !AtLeastAsWide(WIDE_IN_VALUE, WIDE_IN_QTY);
  }

  // ---- The workflow -------------------------------------------------------------------------

  datatype Status = Pending | Escalated | Approved | Rejected | Expired

  predicate Open(s: Status) {
    s.Pending? || s.Escalated?
  }

  datatype Verdict = Approve | Reject

  /** What qualified the decider, as looked up when the decision was made. */
  datatype Qualification = Manager | Limits(rows: seq<Authority>)

  datatype Decision = Decision(step: nat, verdict: Verdict, user: Id, qualification: Qualification)

  datatype ExceptionType = ExceptionType(defaultSteps: nat, requiresReason: bool, expireAfter: nat)

  datatype Exception = Exception(
    kind: Id, warehouse: Id, entity: Id, qty: Option<int>, value: Option<int>,
    requestedBy: Id, createdAt: int, status: Status, currentStep: nat, decisions: seq<Decision>)

  type Catalogue = map<Id, ExceptionType>

  type Exceptions = map<Id, Exception>

  datatype CreateInput = CreateInput(
    kind: Id, warehouse: Id, entity: Id, qty: Option<int>, value: Option<int>, hasReason: bool, requestedBy: Id, now: int)

  /** What the role tables say about a user at the time of a call. */
  datatype Standing = Standing(manager: bool, rows: seq<Authority>)

  datatype WorkflowError =
    | UnknownType
    | ReasonRequired
    | UnknownException
    | AlreadyDecided
    | SelfApprovalDenied
    | DuplicateApprover
    | EscalationRequiresManager
    | InsufficientAuthority

  function Created(types: Catalogue, configured: seq<Authority>, input: CreateInput): Result<Exception, WorkflowError> {
    if input.kind !in types then Failure(UnknownType)
    else if types[input.kind].requiresReason && !input.hasReason then Failure(ReasonRequired)
    else
      Success(Exception(input.kind, input.warehouse, input.entity, input.qty, input.value, input.requestedBy, input.now,
                        if ExceedsAll(configured, input.qty, input.value) then Escalated else Pending, 1, []))
  }

  /** Within the limits: some configured row allows the quantity, and some row, perhaps another, the value. */
  ghost predicate WithinConfigured(configured: seq<Authority>, qty: Option<int>, value: Option<int>) {
    SomeRowAllowsQty(configured, qty) && SomeRowAllowsValue(configured, value)
  }

  /** An exception starts undecided at the first step, pending within the limits and escalated beyond them. */
  ghost predicate StartsAs(e: Exception, configured: seq<Authority>, input: CreateInput) {
    && e.kind == input.kind && e.warehouse == input.warehouse && e.entity == input.entity
    && e.qty == input.qty && e.value == input.value
    && e.requestedBy == input.requestedBy && e.createdAt == input.now && e.currentStep == 1 && e.decisions == []
    && (ValidLimits(configured) ==>
          e.status == if WithinConfigured(configured, input.qty, input.value) then Pending else Escalated)
  }

  lemma CreatedExactly(types: Catalogue, configured: seq<Authority>, input: CreateInput)
    ensures var r := Created(types, configured, input);
            && (r.Success? <==> input.kind in types && (types[input.kind].requiresReason ==> input.hasReason))
            && (r.Success? ==> StartsAs(r.value, configured, input))
            && (r.Failure? ==> r.error == if input.kind in types then ReasonRequired else UnknownType)
  {
    if ValidLimits(configured) {
      EscalationRule(configured, input.qty, input.value);
    }
  }

  predicate HasDecided(e: Exception, user: Id) {
    exists i :: 0 <= i < |e.decisions| && e.decisions[i].user == user
  }

  /** Whether `user` qualifies to decide `e`, and by what. */
  function Qualifies(e: Exception, standing: Standing): Result<Qualification, WorkflowError> {
    if e.status.Escalated? then
      if standing.manager then Success(Manager) else Failure(EscalationRequiresManager)
    else
      var authority := Folded(standing.rows);
      if authority.None? || !AuthorityCovers(authority.value, e.qty, e.value) then Failure(InsufficientAuthority)
      else Success(Limits(standing.rows))
  }

  function Decided(e: Exception, defaultSteps: nat, user: Id, verdict: Verdict, standing: Standing): Result<Exception, WorkflowError> {
    if !Open(e.status) then Failure(AlreadyDecided)
    else if e.requestedBy == user then Failure(SelfApprovalDenied)
    else if HasDecided(e, user) then Failure(DuplicateApprover)
    else
      match Qualifies(e, standing)
      case Failure(error) => Failure(error)
      case Success(q) =>
        var recorded := e.(decisions := e.decisions + [Decision(e.currentStep, verdict, user, q)]);
        if verdict.Reject? then Success(recorded.(status := Rejected))
        else if e.currentStep < defaultSteps then Success(recorded.(currentStep := e.currentStep + 1))
        else Success(recorded.(status := Approved))
  }

  /** Someone else than the requester and all earlier deciders, and a manager or within limits as the status asks. */
  ghost predicate MayDecide(e: Exception, user: Id, standing: Standing) {
    && (e.status == Pending || e.status == Escalated)
    && user != e.requestedBy
    && (forall i :: 0 <= i < |e.decisions| ==> e.decisions[i].user != user)
    && (e.status == Escalated ==> standing.manager)
    && (e.status == Pending ==> WithinConfigured(standing.rows, e.qty, e.value))
  }

  /** The first thing in the way of a decision, in the order in which the checks are made. */
  ghost predicate InTheWay(e: Exception, user: Id, standing: Standing, error: WorkflowError) {
    var open := e.status == Pending || e.status == Escalated;
    var decided := exists i :: 0 <= i < |e.decisions| && e.decisions[i].user == user;
    match error
    case AlreadyDecided => !open
    case SelfApprovalDenied => open && user == e.requestedBy
    case DuplicateApprover => open && user != e.requestedBy && decided
    case EscalationRequiresManager => e.status == Escalated && user != e.requestedBy && !decided && !standing.manager
    case InsufficientAuthority =>
      e.status == Pending && user != e.requestedBy && !decided && !WithinConfigured(standing.rows, e.qty, e.value)
    case _ => false
  }

  /** What a decision leaves: one more entry; rejected at once, one step on, or approved at the last step. */
  predicate Advances(e: Exception, steps: nat, user: Id, verdict: Verdict, standing: Standing, after: Exception) {
    && after.decisions == e.decisions +
         [Decision(e.currentStep, verdict, user, if e.status == Escalated then Manager else Limits(standing.rows))]
    && after.status == (if verdict == Reject then Rejected else if e.currentStep < steps then e.status else Approved)
    && after.currentStep == (if verdict == Approve && e.currentStep < steps then e.currentStep + 1 else e.currentStep)
    && after == e.(decisions := after.decisions, status := after.status, currentStep := after.currentStep)
  }

  lemma DecidedExactly(e: Exception, steps: nat, user: Id, verdict: Verdict, standing: Standing)
    requires ValidLimits(standing.rows)
    ensures var r := Decided(e, steps, user, verdict, standing);
            && (r.Success? <==> MayDecide(e, user, standing))
            && (r.Success? ==> Advances(e, steps, user, verdict, standing, r.value))
            && (r.Failure? ==> InTheWay(e, user, standing, r.error))
  {
    if standing.rows != [] {
      FoldingKeepsWhatSomeRowAllows(standing.rows);
    }
  }

  /** The decision on exception `id`, looked up first. */
  function DecidedIn(types: Catalogue, exceptions: Exceptions, id: Id, user: Id, verdict: Verdict, standing: Standing)
    : Result<Exception, WorkflowError>
    requires id in exceptions ==> exceptions[id].kind in types
  {
    if id !in exceptions then Failure(UnknownException)
    else Decided(exceptions[id], types[exceptions[id].kind].defaultSteps, user, verdict, standing)
  }

  predicate Overdue(types: Catalogue, e: Exception, now: int) {
    Open(e.status) && e.kind in types && e.createdAt < now - types[e.kind].expireAfter
  }

  function ExpiredAll(types: Catalogue, exceptions: Exceptions, now: int, lockedElsewhere: set<Id>): Exceptions {
    map id | id in exceptions ::
      if Overdue(types, exceptions[id], now) && id !in lockedElsewhere then exceptions[id].(status := Expired) else exceptions[id]
  }

  class ExceptionService {
    const types: Catalogue
    var exceptions: Exceptions
    var nextId: Id

    constructor (types: Catalogue)
      ensures this.types == types && exceptions == map[] && nextId == 0
    {
      this.types := types;
      exceptions := map[];
      nextId := 0;
    }

    method Create(input: CreateInput, configured: seq<Authority>) returns (r: Result<Id, WorkflowError>)
      modifies this
      ensures r.Success? == Created(types, configured, input).Success?
      ensures r.Failure? ==> r.error == Created(types, configured, input).error
                             && exceptions == old(exceptions) && nextId == old(nextId)
      ensures r.Success? ==> r.value == old(nextId) && nextId == old(nextId) + 1
                             && exceptions == old(exceptions)[r.value := Created(types, configured, input).value]
      ensures r.Success? <==> input.kind in types && (types[input.kind].requiresReason ==> input.hasReason)
      ensures r.Failure? ==> r.error == if input.kind in types then ReasonRequired else UnknownType
      ensures r.Success? ==> StartsAs(exceptions[r.value], configured, input)
    {
      CreatedExactly(types, configured, input);
      if input.kind !in types {
        return Failure(UnknownType);
      }
      if types[input.kind].requiresReason && !input.hasReason {
        return Failure(ReasonRequired);
      }
      var widest := GetAuthority(configured);
      var escalate := widest.None? || !AuthorityCovers(widest.value, input.qty, input.value);
      var id := nextId;
      exceptions := exceptions[id := Exception(
        input.kind, input.warehouse, input.entity, input.qty, input.value, input.requestedBy, input.now,
        if escalate then Escalated else Pending, 1, [])];
      nextId := nextId + 1;
      return Success(id);
    }

    method Decide(id: Id, user: Id, verdict: Verdict, standing: Standing) returns (r: Result<Exception, WorkflowError>)
      requires id in exceptions ==> exceptions[id].kind in types
      modifies this`exceptions
      ensures r == DecidedIn(types, old(exceptions), id, user, verdict, standing)
      ensures exceptions == if r.Success? then old(exceptions)[id := r.value] else old(exceptions)
      ensures id !in old(exceptions) ==> r == Failure(UnknownException)
      ensures id in old(exceptions) && ValidLimits(standing.rows) ==>
        var e := old(exceptions)[id];
        && (r.Success? <==> MayDecide(e, user, standing))
        && (r.Success? ==> Advances(e, types[e.kind].defaultSteps, user, verdict, standing, r.value))
        && (r.Failure? ==> InTheWay(e, user, standing, r.error))
    {
      if id in exceptions && ValidLimits(standing.rows) {
        DecidedExactly(exceptions[id], types[exceptions[id].kind].defaultSteps, user, verdict, standing);
      }
      if id !in exceptions {
        return Failure(UnknownException);
      }
      var e := exceptions[id];
      if !Open(e.status) {
        return Failure(AlreadyDecided);
      }
      if e.requestedBy == user {
        return Failure(SelfApprovalDenied);
      }
      if HasDecided(e, user) {
        return Failure(DuplicateApprover);
      }
      var qualification := Manager;
      if e.status.Escalated? {
        if !standing.manager {
          return Failure(EscalationRequiresManager);
        }
      } else {
        var authority := GetAuthority(standing.rows);
        if authority.None? || !AuthorityCovers(authority.value, e.qty, e.value) {
          return Failure(InsufficientAuthority);
        }
        qualification := Limits(standing.rows);
      }
      var defaultSteps, step := types[e.kind].defaultSteps, e.currentStep;
      var decisions := e.decisions + [Decision(step, verdict, user, qualification)];
      var finalStatus, nextStep := e.status, step;
      if verdict.Reject? {
        finalStatus := Rejected;
      } else if step < defaultSteps {
        nextStep := step + 1;
      } else {
        finalStatus := Approved;
      }
      var updated := e.(decisions := decisions, status := finalStatus, currentStep := nextStep);
      exceptions := exceptions[id := updated];
      return Success(updated);
    }

    /** Expires every overdue open exception that no other transaction has locked. */
    method ExpireOverdue(now: int, lockedElsewhere: set<Id>, candidates: seq<Id>)
      requires forall id :: id in candidates <==> id in exceptions && Overdue(types, exceptions[id], now) && id !in lockedElsewhere
      modifies this`exceptions
      ensures exceptions == ExpiredAll(types, old(exceptions), now, lockedElsewhere)
      ensures forall id :: id in exceptions <==> id in old(exceptions)
      ensures forall id :: id in exceptions ==>
        var e := old(exceptions)[id];
        exceptions[id] ==
          if (e.status == Pending || e.status == Escalated) && e.kind in types && e.createdAt + types[e.kind].expireAfter < now
             && id !in lockedElsewhere
          then e.(status := Expired) else e
    {
      for i := 0 to |candidates|
        invariant exceptions.Keys == old(exceptions).Keys
        invariant forall id :: id in exceptions ==>
          exceptions[id] == if id in candidates[..i] then old(exceptions)[id].(status := Expired) else old(exceptions)[id]
      {
        exceptions := exceptions[candidates[i] := exceptions[candidates[i]].(status := Expired)];
      }
      assert candidates[..|candidates|] == candidates;
    }
  }

  // ---- Runs ---------------------------------------------------------------------------------

  datatype Event =
    | Creates(id: Id, input: CreateInput, configured: seq<Authority>)
    | Decides(id: Id, user: Id, verdict: Verdict, standing: Standing)
    | Expires(now: int, lockedElsewhere: set<Id>)

  function Next(types: Catalogue, exceptions: Exceptions, ev: Event): Exceptions {
    match ev
    case Creates(id, input, configured) =>
      var r := Created(types, configured, input);
      if id !in exceptions && r.Success? then exceptions[id := r.value] else exceptions
    case Decides(id, user, verdict, standing) =>
      if id !in exceptions || exceptions[id].kind !in types then exceptions
      else
        var r := Decided(exceptions[id], types[exceptions[id].kind].defaultSteps, user, verdict, standing);
        if r.Success? then exceptions[id := r.value] else exceptions
    case Expires(now, lockedElsewhere) => ExpiredAll(types, exceptions, now, lockedElsewhere)
  }

  function Run(types: Catalogue, events: seq<Event>): Exceptions {
    if events == [] then map[] else Next(types, Run(types, events[..|events| - 1]), events[|events| - 1])
  }

  /** The decisions so far: numbered from one, by different people, never the requester, each of them qualified. */
  ghost predicate ProperChain(e: Exception) {
    && (forall i :: 0 <= i < |e.decisions| ==> e.decisions[i].step == i + 1 && e.decisions[i].user != e.requestedBy)
    && (forall i, j :: 0 <= i < j < |e.decisions| ==> e.decisions[i].user != e.decisions[j].user)
    && (forall i :: 0 <= i < |e.decisions| ==>
          match e.decisions[i].qualification
          case Manager => !e.status.Pending?
          case Limits(rows) => !e.status.Escalated? && Folded(rows).Some? && AuthorityCovers(Folded(rows).value, e.qty, e.value))
    && (forall i, j :: 0 <= i < j < |e.decisions| ==>
          e.decisions[i].qualification.Manager? == e.decisions[j].qualification.Manager?)
  }

  ghost predicate AllApprove(decisions: seq<Decision>) {
    forall i :: 0 <= i < |decisions| ==> decisions[i].verdict.Approve?
  }

  /** What every status means for the decisions recorded. */
  ghost predicate Sound(types: Catalogue, e: Exception) {
    && e.kind in types
    && var steps := types[e.kind].defaultSteps;
    && 1 <= e.currentStep <= steps && ProperChain(e)
    && match e.status
       case Approved => |e.decisions| == steps && AllApprove(e.decisions)
       case Rejected => |e.decisions| == e.currentStep && e.decisions[|e.decisions| - 1].verdict.Reject?
                        && AllApprove(e.decisions[..|e.decisions| - 1])
       case _ => |e.decisions| == e.currentStep - 1 && AllApprove(e.decisions)
  }

  /** One more decision, by someone new, qualified as the status asks, continues a proper chain. */
  lemma ChainGrows(e: Exception, user: Id, verdict: Verdict, q: Qualification)
    requires ProperChain(e) && Open(e.status) && |e.decisions| == e.currentStep - 1
    requires user != e.requestedBy && !HasDecided(e, user)
    requires match q
             case Manager => e.status.Escalated?
             case Limits(rows) => e.status.Pending? && Folded(rows).Some? && AuthorityCovers(Folded(rows).value, e.qty, e.value)
    ensures ProperChain(e.(decisions := e.decisions + [Decision(e.currentStep, verdict, user, q)]))
  {
    var e' := e.(decisions := e.decisions + [Decision(e.currentStep, verdict, user, q)]);
    forall i | 0 <= i < |e.decisions| ensures e'.decisions[i] == e.decisions[i] && e.decisions[i].user != user {
    }
  }

  /** Closing a chain, one way or the other, leaves it proper. */
  lemma ChainSettles(e: Exception, status: Status, step: nat)
    requires ProperChain(e) && Open(e.status) && (status == e.status || status.Approved? || status.Rejected?)
    ensures ProperChain(e.(status := status, currentStep := step))
  {
  }

  lemma DecidedIsSound(types: Catalogue, e: Exception, user: Id, verdict: Verdict, standing: Standing)
    requires Sound(types, e)
    ensures var r := Decided(e, types[e.kind].defaultSteps, user, verdict, standing);
            r.Success? ==> Sound(types, r.value)
  {
    var r := Decided(e, types[e.kind].defaultSteps, user, verdict, standing);
    if r.Success? {
      var n := |e.decisions|;
      var q := Qualifies(e, standing).value;
      var grown := e.(decisions := e.decisions + [Decision(e.currentStep, verdict, user, q)]);
      ChainGrows(e, user, verdict, q);
      ChainSettles(grown, r.value.status, r.value.currentStep);
      assert r.value == grown.(status := r.value.status, currentStep := r.value.currentStep);
      assert grown.decisions[..n] == e.decisions;
    }
  }

  ghost predicate AllSound(types: Catalogue, x: Exceptions) {
    forall e :: e in x ==> Sound(types, x[e])
  }

  lemma SoundWith(types: Catalogue, x: Exceptions, e: Id, v: Exception)
    requires AllSound(types, x) && Sound(types, v)
    ensures AllSound(types, x[e := v])
  {
  }

  lemma NextIsSound(types: Catalogue, x: Exceptions, event: Event)
    requires AllSound(types, x)
    requires forall t :: t in types ==> types[t].defaultSteps >= 1
    ensures AllSound(types, Next(types, x, event))
  {
    if event.Decides? && event.id in x && x[event.id].kind in types {
      DecidedIsSound(types, x[event.id], event.user, event.verdict, event.standing);
    }
  }

  lemma {:induction false} RunsAreSound(types: Catalogue, events: seq<Event>)
    requires forall t :: t in types ==> types[t].defaultSteps >= 1
    ensures AllSound(types, Run(types, events))
  {
    if events != [] {
      RunsAreSound(types, events[..|events| - 1]);
      NextIsSound(types, Run(types, events[..|events| - 1]), events[|events| - 1]);
    }
  }

  /**
   In every run, an approved exception carries exactly the prescribed number of approvals, numbered
   in order, by pairwise different people other than the requester, each a manager or covered by
   folded limits.
   */
  lemma ApprovedMeansProperlyApproved(types: Catalogue, events: seq<Event>, id: Id)
    requires forall t :: t in types ==> types[t].defaultSteps >= 1
    requires id in Run(types, events) && Run(types, events)[id].status.Approved?
    ensures var e := Run(types, events)[id];
            && e.kind in types && |e.decisions| == types[e.kind].defaultSteps
            && (forall i :: 0 <= i < |e.decisions| ==>
                  && e.decisions[i].verdict.Approve? && e.decisions[i].step == i + 1 && e.decisions[i].user != e.requestedBy
                  && (e.decisions[i].qualification.Limits? ==>
                        var authority := Folded(e.decisions[i].qualification.rows);
                        authority.Some? && AuthorityCovers(authority.value, e.qty, e.value)))
            && (forall i, j :: 0 <= i < j < |e.decisions| ==>
                  && e.decisions[i].user != e.decisions[j].user
                  && e.decisions[i].qualification.Manager? == e.decisions[j].qualification.Manager?)
  {
    RunsAreSound(types, events);
  }

  /** A decided or expired exception never changes again. */
  lemma DecidedStaysDecided(types: Catalogue, exceptions: Exceptions, ev: Event, id: Id)
    requires id in exceptions && !Open(exceptions[id].status)
    ensures id in Next(types, exceptions, ev) && Next(types, exceptions, ev)[id] == exceptions[id]
  {
  }

  /** Where exception `id` comes from: the step of the run that put it on record. */
  ghost predicate CreatedAt(types: Catalogue, events: seq<Event>, i: nat, id: Id) {
    && i < |events| && events[i].Creates? && events[i].id == id
    && id !in Run(types, events[..i]) && id in Run(types, events[..i + 1])
  }

  /** It carries what it was created with, and is escalated while open, and decided by managers, exactly beyond the limits. */
  ghost predicate StemsFrom(e: Exception, input: CreateInput, configured: seq<Authority>) {
    var beyond := !WithinConfigured(configured, input.qty, input.value);
    && e.kind == input.kind && e.qty == input.qty && e.value == input.value
    && e.requestedBy == input.requestedBy && e.createdAt == input.now
    && (e.status == Pending ==> !beyond) && (e.status == Escalated ==> beyond)
    && forall i :: 0 <= i < |e.decisions| ==> (e.decisions[i].qualification.Manager? <==> beyond)
  }

  lemma NextKeepsOrigin(types: Catalogue, x: Exceptions, ev: Event, id: Id, input: CreateInput, configured: seq<Authority>)
    requires id in x && StemsFrom(x[id], input, configured)
    ensures id in Next(types, x, ev) && StemsFrom(Next(types, x, ev)[id], input, configured)
  {
  }

  ghost predicate Stems(types: Catalogue, events: seq<Event>, id: Id, e: Exception, i: nat) {
    CreatedAt(types, events, i, id) && StemsFrom(e, events[i].input, events[i].configured)
  }

  lemma LaterStems(types: Catalogue, events: seq<Event>, id: Id, i: nat)
    requires events != [] && id in Run(types, events[..|events| - 1])
    requires Stems(types, events[..|events| - 1], id, Run(types, events[..|events| - 1])[id], i)
    ensures id in Run(types, events) && Stems(types, events, id, Run(types, events)[id], i)
  {
    var before := events[..|events| - 1];
    NextKeepsOrigin(types, Run(types, before), events[|events| - 1], id, before[i].input, before[i].configured);
    assert before[..i] == events[..i] && before[..i + 1] == events[..i + 1];
  }

  lemma FirstStems(types: Catalogue, events: seq<Event>, id: Id)
    requires events != [] && id !in Run(types, events[..|events| - 1]) && id in Run(types, events)
    requires events[|events| - 1].Creates? ==> ValidLimits(events[|events| - 1].configured)
    ensures Stems(types, events, id, Run(types, events)[id], |events| - 1)
  {
    var last := events[|events| - 1];
    assert last.Creates? && last.id == id;
    CreatedExactly(types, last.configured, last.input);
    assert events[..|events| - 1 + 1] == events;
  }

  /**
   In every run, whatever limits are configured meanwhile, an exception is escalated while it is open, and decided by
   managers, exactly when it was created beyond the limits configured then.
   */
  lemma {:induction false} EscalatedExactlyBeyondLimits(types: Catalogue, events: seq<Event>, id: Id)
    requires id in Run(types, events)
    requires forall i :: 0 <= i < |events| && events[i].Creates? ==> ValidLimits(events[i].configured)
    ensures exists i: nat :: Stems(types, events, id, Run(types, events)[id], i)
  {
    var before := events[..|events| - 1];
    if id in Run(types, before) {
      EscalatedExactlyBeyondLimits(types, before, id);
      var i: nat :| Stems(types, before, id, Run(types, before)[id], i);
      LaterStems(types, events, id, i);
    } else {
      FirstStems(types, events, id);
    }
  }
}
