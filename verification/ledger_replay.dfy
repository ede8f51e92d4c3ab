/** Replaying the ledger: when the derived balances agree with their own history. */
module LedgerReplay {
  import opened Common
  import opened StockEffects
  import opened StockLedger

  /** The balances rebuilt from nothing but the movement rows. */
  function Replay(ledger: seq<Row>): Balances {
    if ledger == [] then map[]
    else
      var row := ledger[|ledger| - 1];
      PostOption(PostOption(Replay(ledger[..|ledger| - 1]), row.DebitLeg(), -row.qty), row.CreditLeg(), row.qty)
  }

  function Debited(ledger: seq<Row>, leg: Leg): int {
    if ledger == [] then 0
    else
      var row := ledger[|ledger| - 1];
      Debited(ledger[..|ledger| - 1], leg) + (if row.DebitLeg() == Some(leg) then row.qty else 0)
  }

  function Credited(ledger: seq<Row>, leg: Leg): int {
    if ledger == [] then 0
    else
      var row := ledger[|ledger| - 1];
      Credited(ledger[..|ledger| - 1], leg) + (if row.CreditLeg() == Some(leg) then row.qty else 0)
  }

  /** Balance tables that hold the same quantities; an absent row counts as zero. */
  ghost predicate SameStock(m: Balances, n: Balances) {
    forall l: Leg :: Qty(m, l) == Qty(n, l)
  }

  ghost predicate NonNegative(m: Balances) {
    forall l: Leg :: 0 <= Qty(m, l)
  }

  lemma PostQty(m: Balances, leg: Leg, d: int)
    ensures forall l: Leg ::
      Qty(Post(m, leg, d), l) == Qty(m, l) + (if l == leg then d else 0)
  {
  }

  lemma QtyOfPostOption(m: Balances, leg: Option<Leg>, d: int, l: Leg)
    ensures Qty(PostOption(m, leg, d), l) == Qty(m, l) + (if leg == Some(l) then d else 0)
  {
  }

  lemma {:induction false} ReplayIsCreditsMinusDebits(ledger: seq<Row>, leg: Leg)
    ensures Qty(Replay(ledger), leg) == Credited(ledger, leg) - Debited(ledger, leg)
  {
    if ledger != [] {
      var front := ledger[..|ledger| - 1];
      var row := ledger[|ledger| - 1];
      ReplayIsCreditsMinusDebits(front, leg);
      if row.DebitLeg().Some? {
        PostQty(Replay(front), row.DebitLeg().value, -row.qty);
      }
      if row.CreditLeg().Some? {
        PostQty(PostOption(Replay(front), row.DebitLeg(), -row.qty), row.CreditLeg().value, row.qty);
      }
    }
  }

  lemma ReplaySnoc(ledger: seq<Row>, row: Row)
    ensures Replay(ledger + [row]) ==
            PostOption(PostOption(Replay(ledger), row.DebitLeg(), -row.qty), row.CreditLeg(), row.qty)
  {
    assert (ledger + [row])[..|ledger|] == ledger;
  }

  /** The rows of a posting debit what it debits; only the last row names a credited bucket. */
  ghost predicate WellShaped(p: Posting, qty: int) {
    && 1 <= |p.rows| <= 2
    && p.rows[0].DebitLeg() == p.debit
    && (|p.rows| == 2 ==> p.rows[0].CreditLeg().None? && p.rows[1].DebitLeg().None?)
    && forall r :: r in p.rows ==> r.qty == qty
  }

  function Named(p: Posting): Option<Leg>
    requires p.rows != []
  {
    p.rows[|p.rows| - 1].CreditLeg()
  }

  lemma PostingShape(m: Movement)
    requires PostingOf(m).Success?
    ensures 0 < m.qty && WellShaped(PostingOf(m).value, m.qty)
    ensures Named(PostingOf(m).value).Some? == PostingOf(m).value.credit.Some?
  {
  }

  lemma ReplayOfTwo(ledger: seq<Row>, out: Row, back: Row)
    requires out.CreditLeg().None? && back.DebitLeg().None?
    ensures Replay(ledger + [out, back]) == PostOption(PostOption(Replay(ledger), out.DebitLeg(), -out.qty), back.CreditLeg(), back.qty)
  {
    assert ledger + [out, back] == (ledger + [out]) + [back];
    ReplaySnoc(ledger, out);
    ReplaySnoc(ledger + [out], back);
  }

  lemma ReplayOfPosting(ledger: seq<Row>, p: Posting, qty: int)
    requires WellShaped(p, qty)
    ensures Replay(ledger + p.rows) == PostOption(PostOption(Replay(ledger), p.debit, -qty), Named(p), qty)
  {
    assert p.rows[0] in p.rows && p.rows[|p.rows| - 1] in p.rows;
    if |p.rows| == 2 {
      assert p.rows == [p.rows[0], p.rows[1]];
      ReplayOfTwo(ledger, p.rows[0], p.rows[1]);
    } else {
      assert p.rows == [p.rows[0]];
      ReplaySnoc(ledger, p.rows[0]);
    }
  }

  /** How far the credited bucket and the one named by the ledger drift apart in one movement. */
  function Drift(p: Posting, qty: int, l: Leg): int
    requires p.rows != []
  {
    (if p.credit == Some(l) then qty else 0) - (if Named(p) == Some(l) then qty else 0)
  }

  /** One posting moves a balance away from its replay by exactly its drift. */
  lemma DriftOfPosting(s: Stock, p: Posting, qty: int, l: Leg)
    requires WellShaped(p, qty)
    ensures var s' := Posted(s, p, qty);
            Qty(s'.balances, l) - Qty(Replay(s'.ledger), l)
            == Qty(s.balances, l) - Qty(Replay(s.ledger), l) + Drift(p, qty, l)
  {
    ReplayOfPosting(s.ledger, p, qty);
    QtyOfPostOption(s.balances, p.debit, -qty, l);
    QtyOfPostOption(PostOption(s.balances, p.debit, -qty), p.credit, qty, l);
    QtyOfPostOption(Replay(s.ledger), p.debit, -qty, l);
    QtyOfPostOption(PostOption(Replay(s.ledger), p.debit, -qty), Named(p), qty, l);
  }

  lemma DriftIsNilExactlyWhenSidesAgree(m: Movement)
    requires PostingOf(m).Success?
    ensures PostingOf(m).value.rows != []
    ensures m.SidesAgree() <==> PostingOf(m).value.credit == Named(PostingOf(m).value)
    ensures m.SidesAgree() <==> forall l: Leg :: Drift(PostingOf(m).value, m.qty, l) == 0
  {
    var p := PostingOf(m).value;
    if !m.SidesAgree() {
      assert Drift(p, m.qty, p.credit.value) == m.qty;
    }
  }

  lemma StepKeepsNonNegative(s: Stock, m: Movement)
    requires NonNegative(s.balances)
    ensures NonNegative(Step(s, m).balances)
  {
    var r := PostingOf(m);
    if Applied(s, m).Success? {
      PostingShape(m);
      forall l: Leg ensures 0 <= Qty(Posted(s, r.value, m.qty).balances, l) {
        assert 0 <= Qty(s.balances, l);
      }
    }
  }

  /** No run of movements, accepted or refused, ever leaves a bucket below zero. */
  lemma {:induction false} NoBucketEverNegative(ms: seq<Movement>)
    ensures NonNegative(Run(EMPTY_STOCK, ms).balances)
  {
    if ms != [] {
      NoBucketEverNegative(ms[..|ms| - 1]);
      StepKeepsNonNegative(Run(EMPTY_STOCK, ms[..|ms| - 1]), ms[|ms| - 1]);
    }
  }

  /** The movements of a run that were accepted, in order. */
  function Accepted(s: Stock, ms: seq<Movement>): seq<Movement> {
    if ms == [] then []
    else
      var front := ms[..|ms| - 1];
      Accepted(s, front) + (if Applied(Run(s, front), ms[|ms| - 1]).Success? then [ms[|ms| - 1]] else [])
  }

  // ---- Totals over many balance rows ------------------------------------------------------

  function Selected(m: Balances, sel: Leg -> bool): map<Leg, int> {
    map l | l in m && sel(l) :: m[l]
  }

  /** The stock held in all the buckets that `sel` selects, over the whole balance table. */
  ghost function Total(m: Balances, sel: Leg -> bool): int {
    MapSum(Selected(m, sel))
  }

  lemma TotalOfPost(m: Balances, leg: Leg, d: int, sel: Leg -> bool)
    ensures Total(Post(m, leg, d), sel) == Total(m, sel) + (if sel(leg) then d else 0)
  {
    if sel(leg) {
      assert Selected(Post(m, leg, d), sel) == Selected(m, sel)[leg := Qty(m, leg) + d];
      MapSumUpdate(Selected(m, sel), leg, Qty(m, leg) + d);
    } else {
      assert Selected(Post(m, leg, d), sel) == Selected(m, sel);
    }
  }

  lemma {:induction false} SumOfNothing<K>(m: map<K, int>)
    requires forall k :: k in m ==> m[k] == 0
    ensures MapSum(m) == 0
    decreases |m|
  {
    if m != map[] {
      var k :| k in m;
      MapSumRemove(m, k);
      SumOfNothing(m - {k});
    }
  }

  /** Totals depend on the quantities alone, not on which zero columns were written. */
  lemma {:induction false} SumOfSame<K>(m: map<K, int>, n: map<K, int>)
    requires forall k :: k in m ==> m[k] == if k in n then n[k] else 0
    requires forall k :: k in n && k !in m ==> n[k] == 0
    ensures MapSum(m) == MapSum(n)
    decreases |m|
  {
    if m == map[] {
      SumOfNothing(n);
    } else {
      var k :| k in m;
      MapSumRemove(m, k);
      if k in n {
        MapSumRemove(n, k);
        SumOfSame(m - {k}, n - {k});
      } else {
        SumOfSame(m - {k}, n);
      }
    }
  }

  lemma TotalOfSameStock(m: Balances, n: Balances, sel: Leg -> bool)
    requires SameStock(m, n)
    ensures Total(m, sel) == Total(n, sel)
  {
    forall l | l in Selected(m, sel) || l in Selected(n, sel)
      ensures Qty(m, l) == Qty(n, l)
    {
    }
    SumOfSame(Selected(m, sel), Selected(n, sel));
  }

  function Signed(leg: Option<Leg>, sel: Leg -> bool, d: int): int {
    if leg.Some? && sel(leg.value) then d else 0
  }

  lemma TotalOfPostOption(m: Balances, leg: Option<Leg>, d: int, sel: Leg -> bool)
    ensures Total(PostOption(m, leg, d), sel) == Total(m, sel) + Signed(leg, sel, d)
  {
    if leg.Some? {
      TotalOfPost(m, leg.value, d, sel);
    }
  }

  lemma TotalOfTransfer(m: Balances, from: Option<Leg>, to: Option<Leg>, qty: int, sel: Leg -> bool)
    ensures Total(PostOption(PostOption(m, from, -qty), to, qty), sel) ==
            Total(m, sel) + Signed(to, sel, qty) - Signed(from, sel, qty)
  {
    TotalOfPostOption(m, from, -qty, sel);
    TotalOfPostOption(PostOption(m, from, -qty), to, qty, sel);
  }

  // ---- The run-level theorem --------------------------------------------------------------

  ghost predicate Rebuilds(s: Stock) {
    SameStock(s.balances, Replay(s.ledger))
  }

  ghost predicate AllSidesAgree(ms: seq<Movement>) {
    forall m :: m in ms ==> m.SidesAgree()
  }

  function NoLocation(): Leg -> bool {
    (l: Leg) => l.key.location.None?
  }

  function NoPallet(): Leg -> bool {
    (l: Leg) => l.key.pallet.None?
  }

  /**
   Stock whose key lacks a location, and stock whose key lacks a pallet, counted together. A
   location move that leaves out a "to" side credits more of it than its ledger row admits, and
   nothing ever corrects that: the gap between table and replay only grows.
   */
  ghost function Vague(m: Balances): int {
    Total(m, NoLocation()) + Total(m, NoPallet())
  }

  ghost function Gap(s: Stock): int {
    Vague(s.balances) - Vague(Replay(s.ledger))
  }

  lemma GapOfPosting(s: Stock, p: Posting, qty: int)
    requires WellShaped(p, qty)
    ensures Gap(Posted(s, p, qty)) == Gap(s)
      + Signed(p.credit, NoLocation(), qty) + Signed(p.credit, NoPallet(), qty)
      - Signed(Named(p), NoLocation(), qty) - Signed(Named(p), NoPallet(), qty)
  {
    ReplayOfPosting(s.ledger, p, qty);
    TotalOfTransfer(s.balances, p.debit, p.credit, qty, NoLocation());
    TotalOfTransfer(s.balances, p.debit, p.credit, qty, NoPallet());
    TotalOfTransfer(Replay(s.ledger), p.debit, Named(p), qty, NoLocation());
    TotalOfTransfer(Replay(s.ledger), p.debit, Named(p), qty, NoPallet());
  }

  /** A named bucket differs from the credited one only by filling in a missing location or pallet. */
  lemma NamedFillsIn(m: Movement)
    requires PostingOf(m).Success? && !m.SidesAgree()
    ensures PostingOf(m).value.rows != []
    ensures var p := PostingOf(m).value;
            && p.credit.Some? && Named(p).Some?
            && (p.credit.value.key.location.Some? ==> Named(p).value.key.location.Some?)
            && (p.credit.value.key.pallet.Some? ==> Named(p).value.key.pallet.Some?)
            && ((p.credit.value.key.location.None? && Named(p).value.key.location.Some?)
                || (p.credit.value.key.pallet.None? && Named(p).value.key.pallet.Some?))
  {
  }

  lemma GapGrows(s: Stock, m: Movement)
    requires PostingOf(m).Success?
    ensures var s' := Posted(s, PostingOf(m).value, m.qty);
            if m.SidesAgree() then Gap(s') == Gap(s) else Gap(s') > Gap(s)
  {
    PostingShape(m);
    GapOfPosting(s, PostingOf(m).value, m.qty);
    if m.SidesAgree() {
      DriftIsNilExactlyWhenSidesAgree(m);
    } else {
      NamedFillsIn(m);
    }
  }

  lemma {:induction false} GapOfRun(ms: seq<Movement>)
    ensures var s := Run(EMPTY_STOCK, ms);
            0 <= Gap(s) && (Gap(s) == 0 ==> AllSidesAgree(Accepted(EMPTY_STOCK, ms)))
  {
    if ms != [] {
      var front, m := ms[..|ms| - 1], ms[|ms| - 1];
      GapOfRun(front);
      if Applied(Run(EMPTY_STOCK, front), m).Success? {
        GapGrows(Run(EMPTY_STOCK, front), m);
      }
    }
  }

  lemma {:induction false} AgreeingRunRebuilds(ms: seq<Movement>)
    requires AllSidesAgree(Accepted(EMPTY_STOCK, ms))
    ensures Rebuilds(Run(EMPTY_STOCK, ms))
  {
    if ms != [] {
      var front, m := ms[..|ms| - 1], ms[|ms| - 1];
      AgreeingRunRebuilds(front);
      var s := Run(EMPTY_STOCK, front);
      if Applied(s, m).Success? {
        assert m in Accepted(EMPTY_STOCK, ms);
        DriftIsNilExactlyWhenSidesAgree(m);
        PostingShape(m);
        var p := PostingOf(m).value;
        forall l: Leg ensures Qty(Posted(s, p, m.qty).balances, l) == Qty(Replay(Posted(s, p, m.qty).ledger), l) {
          DriftOfPosting(s, p, m.qty, l);
        }
      }
    }
  }

  /**
   After any run of accepted and refused movements, every bucket of every key holds the sum of the
   ledger rows that credit it minus the sum of those that debit it, if and only if every accepted
   location move named a "to" side wherever it named a "from" side.
   */
  lemma LedgerRebuildsBalances(ms: seq<Movement>)
    ensures var s := Run(EMPTY_STOCK, ms);
            (forall l: Leg :: Qty(s.balances, l) == Credited(s.ledger, l) - Debited(s.ledger, l))
            <==> AllSidesAgree(Accepted(EMPTY_STOCK, ms))
  {
    var s := Run(EMPTY_STOCK, ms);
    forall l: Leg
      ensures Qty(Replay(s.ledger), l) == Credited(s.ledger, l) - Debited(s.ledger, l)
    {
      ReplayIsCreditsMinusDebits(s.ledger, l);
    }
    if AllSidesAgree(Accepted(EMPTY_STOCK, ms)) {
      AgreeingRunRebuilds(ms);
    }
    if !AllSidesAgree(Accepted(EMPTY_STOCK, ms)) && Rebuilds(s) {
      TotalOfSameStock(s.balances, Replay(s.ledger), NoLocation());
      TotalOfSameStock(s.balances, Replay(s.ledger), NoPallet());
      GapOfRun(ms);
    }
  }

  /** Five units arrive on pallet 7 at location 10, and are moved to location 11 without naming a pallet there. */
  const ARRIVES_ON_PALLET := Movement(1, 1, None, Putaway, 1, None, 5, None, None, Some(10), Some(7),
                                      Some(Available), None, None, None, None, false)

  const LEAVES_PALLET := Movement(1, 1, None, TransferenciaInterna, 1, None, 5, Some(10), Some(7), Some(11), None,
                                  Some(Available), None, None, None, None, false)

  /** What the balance table credits, and what the ledger row names. */
  const OFF_PALLET := Leg(Key(1, 1, 1, None, Some(11), None), Available)

  const STILL_ON_PALLET := Leg(Key(1, 1, 1, None, Some(11), Some(7)), Available)

  lemma RunOfTwo(s: Stock, m: Movement, n: Movement)
    ensures Run(s, [m, n]) == Step(Step(s, m), n)
  {
    assert [m, n][..1] == [m] && [m][..0] == [];
    assert Run(s, [m]) == Step(Run(s, []), m);
  }

  lemma LedgerOfTwo(ledger: seq<Row>, leg: Leg)
    requires |ledger| == 2
    ensures Credited(ledger, leg) == (if ledger[0].CreditLeg() == Some(leg) then ledger[0].qty else 0)
                                     + (if ledger[1].CreditLeg() == Some(leg) then ledger[1].qty else 0)
    ensures Debited(ledger, leg) == (if ledger[0].DebitLeg() == Some(leg) then ledger[0].qty else 0)
                                    + (if ledger[1].DebitLeg() == Some(leg) then ledger[1].qty else 0)
  {
    assert ledger[..1][..0] == [];
    assert Credited(ledger[..1], leg) == if ledger[0].CreditLeg() == Some(leg) then ledger[0].qty else 0;
    assert Debited(ledger[..1], leg) == if ledger[0].DebitLeg() == Some(leg) then ledger[0].qty else 0;
  }

  const ON_ARRIVAL := Leg(Key(1, 1, 1, None, Some(10), Some(7)), Available)

  lemma ArrivalPosts()
    ensures PostingOf(ARRIVES_ON_PALLET).Success?
    ensures var p := PostingOf(ARRIVES_ON_PALLET).value;
            && p.debit.None? && p.credit == Some(ON_ARRIVAL) && |p.rows| == 1
            && p.rows[0].qty == 5 && p.rows[0].DebitLeg().None? && p.rows[0].CreditLeg() == Some(ON_ARRIVAL)
  {
  }

  lemma LeavingPosts()
    ensures PostingOf(LEAVES_PALLET).Success?
    ensures var p := PostingOf(LEAVES_PALLET).value;
            && p.debit == Some(ON_ARRIVAL) && p.credit == Some(OFF_PALLET) && |p.rows| == 1
            && p.rows[0].qty == 5 && p.rows[0].DebitLeg() == Some(ON_ARRIVAL) && p.rows[0].CreditLeg() == Some(STILL_ON_PALLET)
  {
  }

  /** Where two movements of five units leave the stock, whatever they are. */
  lemma TwoPostings(m: Movement, n: Movement, a: Leg, b: Leg)
    requires m.qty == 5 && n.qty == 5 && a != b && PostingOf(m).Success? && PostingOf(n).Success?
    requires PostingOf(m).value.debit.None? && PostingOf(m).value.credit == Some(a)
    requires PostingOf(n).value.debit == Some(a) && PostingOf(n).value.credit == Some(b)
    ensures var s := Step(Step(EMPTY_STOCK, m), n);
            && (forall l: Leg :: Qty(s.balances, l) == if l == b then 5 else 0)
            && s.ledger == PostingOf(m).value.rows + PostingOf(n).value.rows
  {
    assert Step(EMPTY_STOCK, m) == Posted(EMPTY_STOCK, PostingOf(m).value, 5);
    assert Qty(Step(EMPTY_STOCK, m).balances, a) == 5;
  }

  /** The balances hold the five units off the pallet; the ledger says they are still on it. */
  lemma UnnamedPalletBreaksReplay()
    ensures var s := Run(EMPTY_STOCK, [ARRIVES_ON_PALLET, LEAVES_PALLET]);
            && Qty(s.balances, OFF_PALLET) == 5 && Credited(s.ledger, OFF_PALLET) - Debited(s.ledger, OFF_PALLET) == 0
            && Qty(s.balances, STILL_ON_PALLET) == 0
            && Credited(s.ledger, STILL_ON_PALLET) - Debited(s.ledger, STILL_ON_PALLET) == 5
  {
    RunOfTwo(EMPTY_STOCK, ARRIVES_ON_PALLET, LEAVES_PALLET);
    ArrivalPosts();
    LeavingPosts();
    TwoPostings(ARRIVES_ON_PALLET, LEAVES_PALLET, ON_ARRIVAL, OFF_PALLET);
    var s := Run(EMPTY_STOCK, [ARRIVES_ON_PALLET, LEAVES_PALLET]);
    LedgerOfTwo(s.ledger, OFF_PALLET);
    LedgerOfTwo(s.ledger, STILL_ON_PALLET);
  }

  // ---- Conservation -----------------------------------------------------------------------

  function OfProduct(product: Id): Leg -> bool {
    (l: Leg) => l.key.product == product
  }

  /** What a movement adds to the stock on hand. A location move without origin is a first entry. */
  function OnHandChange(m: Movement): int {
    if m.IsFirstEntry() then m.qty
    else
      match FlowOf(m.movementType)
      case Entry => m.qty
      case Exit => -m.qty
      case Neutral => 0
  }

  function OnHandChanges(product: Id, ms: seq<Movement>): int {
    if ms == [] then 0
    else OnHandChanges(product, ms[..|ms| - 1]) +
         (if ms[|ms| - 1].product == product then OnHandChange(ms[|ms| - 1]) else 0)
  }

  lemma OnHandChangesSnoc(product: Id, ms: seq<Movement>, m: Movement)
    ensures OnHandChanges(product, ms + [m]) ==
            OnHandChanges(product, ms) + (if m.product == product then OnHandChange(m) else 0)
  {
    assert (ms + [m])[..|ms|] == ms;
  }

  lemma OnHandChangeIsCreditMinusDebit(product: Id, m: Movement)
    requires PostingOf(m).Success?
    ensures Signed(PostingOf(m).value.credit, OfProduct(product), m.qty)
            - Signed(PostingOf(m).value.debit, OfProduct(product), m.qty)
            == if m.product == product then OnHandChange(m) else 0
  {
  }

  /**
   Over every run, the stock of a product in all warehouses, rows and buckets equals what entered
   minus what left, as classified by the effect table.
   */
  lemma {:induction false} StockOnHandIsConserved(product: Id, ms: seq<Movement>)
    ensures Total(Run(EMPTY_STOCK, ms).balances, OfProduct(product))
            == OnHandChanges(product, Accepted(EMPTY_STOCK, ms))
  {
    if ms == [] {
      SumOfNothing(Selected(map[], OfProduct(product)));
    } else {
      var front, m := ms[..|ms| - 1], ms[|ms| - 1];
      StockOnHandIsConserved(product, front);
      if Applied(Run(EMPTY_STOCK, front), m).Success? {
        TotalOfTransfer(Run(EMPTY_STOCK, front).balances, PostingOf(m).value.debit, PostingOf(m).value.credit, m.qty, OfProduct(product));
        OnHandChangeIsCreditMinusDebit(product, m);
        OnHandChangesSnoc(product, Accepted(EMPTY_STOCK, front), m);
      } else {
        assert Accepted(EMPTY_STOCK, ms) == Accepted(EMPTY_STOCK, front);
      }
    }
  }

  predicate NamesInTransit(m: Movement) {
    m.bucketFromOverride == Some(InTransit) || m.bucketToOverride == Some(InTransit)
  }

  /** Dispatched from a warehouse minus received elsewhere out of its transit stock. */
  function TransitChange(warehouse: Id, product: Id, m: Movement): int {
    if m.warehouse != warehouse || m.product != product then 0
    else if m.movementType.TransferenciaSaidaArmazem? then m.qty
    else if m.movementType.TransferenciaEntradaArmazem? then -m.qty
    else 0
  }

  function TransitChanges(warehouse: Id, product: Id, ms: seq<Movement>): int {
    if ms == [] then 0
    else TransitChanges(warehouse, product, ms[..|ms| - 1]) + TransitChange(warehouse, product, ms[|ms| - 1])
  }

  lemma TransitChangesSnoc(warehouse: Id, product: Id, ms: seq<Movement>, m: Movement)
    ensures TransitChanges(warehouse, product, ms + [m]) ==
            TransitChanges(warehouse, product, ms) + TransitChange(warehouse, product, m)
  {
    assert (ms + [m])[..|ms|] == ms;
  }

  function InTransitAt(warehouse: Id, product: Id): Leg -> bool {
    (l: Leg) => l.key.warehouse == warehouse && l.key.product == product && l.bucket == InTransit
  }

  lemma TransitChangeIsCreditMinusDebit(warehouse: Id, product: Id, m: Movement)
    requires PostingOf(m).Success? && !NamesInTransit(m)
    ensures Signed(PostingOf(m).value.credit, InTransitAt(warehouse, product), m.qty)
            - Signed(PostingOf(m).value.debit, InTransitAt(warehouse, product), m.qty)
            == TransitChange(warehouse, product, m)
  {
  }

  /**
   As long as no override names the transit bucket, the goods in transit at an origin warehouse are
   exactly those dispatched from it and not yet received.
   */
  lemma {:induction false} TransitIsDispatchedMinusReceived(warehouse: Id, product: Id, ms: seq<Movement>)
    requires forall m :: m in ms ==> !NamesInTransit(m)
    ensures Total(Run(EMPTY_STOCK, ms).balances, InTransitAt(warehouse, product))
            == TransitChanges(warehouse, product, Accepted(EMPTY_STOCK, ms))
  {
    if ms == [] {
      SumOfNothing(Selected(map[], InTransitAt(warehouse, product)));
    } else {
      var front, m := ms[..|ms| - 1], ms[|ms| - 1];
      TransitIsDispatchedMinusReceived(warehouse, product, front);
      assert m in ms;
      if Applied(Run(EMPTY_STOCK, front), m).Success? {
        TotalOfTransfer(Run(EMPTY_STOCK, front).balances, PostingOf(m).value.debit, PostingOf(m).value.credit, m.qty, InTransitAt(warehouse, product));
        TransitChangeIsCreditMinusDebit(warehouse, product, m);
        TransitChangesSnoc(warehouse, product, Accepted(EMPTY_STOCK, front), m);
      } else {
        assert Accepted(EMPTY_STOCK, ms) == Accepted(EMPTY_STOCK, front);
      }
    }
  }
}
