/** The comparator chains of the four turnover policies, and ordering candidates by a chain. */
module PolicyOrder {
  import opened Common
  import opened Text

  datatype Candidate = Candidate(
    balanceId: Id, product: Id, batch: Option<Id>, location: Id, pallet: Option<Id>,
    qtyAvailable: int, expirationDate: Option<string>, entryDate: string,
    locationType: string, locationCode: string, zoneType: string,
    accessPolicy: Option<string>, channelKey: string)

  datatype Policy = FEFO | FIFO | LIFO | JIT

  datatype Criterion = ExpirationAsc | EntryAsc | EntryDesc | PickingFirst | LocationCodeAsc | CrossDockingFirst

  function Rank(first: bool): int {
    if first then 0 else 1
  }

  predicate CrossDocking(c: Candidate) {
    c.zoneType == "CROSS_DOCKING"
  }

  /** Negative when `a` goes before `b`, zero when the criterion does not tell them apart. */
  function Verdict(c: Criterion, a: Candidate, b: Candidate): int {
    match c
    case ExpirationAsc =>
      if a.expirationDate == b.expirationDate then 0
      else if a.expirationDate.None? then 1
      else if b.expirationDate.None? then -1
      else CompareText(a.expirationDate.value, b.expirationDate.value)
    case EntryAsc => CompareText(a.entryDate, b.entryDate)
    case EntryDesc => -CompareText(a.entryDate, b.entryDate)
    case PickingFirst => Rank(a.locationType == "PICKING") - Rank(b.locationType == "PICKING")
    case LocationCodeAsc => CompareText(a.locationCode, b.locationCode)
    case CrossDockingFirst => Rank(CrossDocking(a)) - Rank(CrossDocking(b))
  }

  type Chain = seq<Criterion>

  function ChainOf(policy: Policy): Chain {
    match policy
    case FEFO => [ExpirationAsc, EntryAsc, PickingFirst, LocationCodeAsc]
    case FIFO => [EntryAsc, ExpirationAsc, PickingFirst, LocationCodeAsc]
    case LIFO => [EntryDesc, PickingFirst, LocationCodeAsc]
    case JIT => [CrossDockingFirst, EntryAsc, ExpirationAsc, PickingFirst, LocationCodeAsc]
  }

  /** The first criterion that tells two candidates apart decides. */
  function ChainVerdict(chain: Chain, a: Candidate, b: Candidate): int {
    if chain == [] then 0
    else
      var verdict := Verdict(chain[0], a, b);
      if verdict != 0 then verdict else ChainVerdict(chain[1..], a, b)
  }

  // ---- Every chain is a total preorder ------------------------------------------------------

  lemma VerdictPreorder(c: Criterion, x: Candidate, y: Candidate, z: Candidate)
    ensures Verdict(c, x, x) == 0 && Verdict(c, x, y) == -Verdict(c, y, x)
    ensures Verdict(c, x, y) <= 0 && Verdict(c, y, z) <= 0 ==> Verdict(c, x, z) <= 0
    ensures Verdict(c, x, y) <= 0 && Verdict(c, y, z) <= 0 && (Verdict(c, x, y) < 0 || Verdict(c, y, z) < 0) ==>
              Verdict(c, x, z) < 0
  {
    match c
    case ExpirationAsc =>
      if x.expirationDate.Some? && y.expirationDate.Some? {
        TextPreorder(x.expirationDate.value, y.expirationDate.value,
                     if z.expirationDate.Some? then z.expirationDate.value else "");
        if z.expirationDate.Some? {
          CompareTextAntisymmetric(y.expirationDate.value, z.expirationDate.value);
          CompareTextAntisymmetric(x.expirationDate.value, z.expirationDate.value);
        }
      }
    case EntryAsc => TextPreorder(x.entryDate, y.entryDate, z.entryDate);
    case EntryDesc =>
      TextPreorder(x.entryDate, y.entryDate, z.entryDate);
      TextPreorder(z.entryDate, y.entryDate, x.entryDate);
      CompareTextAntisymmetric(x.entryDate, z.entryDate);
      CompareTextAntisymmetric(y.entryDate, z.entryDate);
    case LocationCodeAsc => TextPreorder(x.locationCode, y.locationCode, z.locationCode);
    case PickingFirst =>
    case CrossDockingFirst =>
  }

  lemma TextPreorder(x: string, y: string, z: string)
    ensures CompareText(x, x) == 0 && CompareText(x, y) == -CompareText(y, x)
    ensures CompareText(x, y) <= 0 && CompareText(y, z) <= 0 ==> CompareText(x, z) <= 0
    ensures CompareText(x, y) <= 0 && CompareText(y, z) <= 0 && (CompareText(x, y) < 0 || CompareText(y, z) < 0) ==>
              CompareText(x, z) < 0
  {
    CompareTextAntisymmetric(x, x);
    CompareTextAntisymmetric(x, y);
    if CompareText(x, y) <= 0 && CompareText(y, z) <= 0 {
      CompareTextTransitive(x, y, z);
    }
  }

  /** Any two candidates are comparable, verdicts are antisymmetric, and they compose. */
  lemma {:induction false} ChainPreorder(chain: Chain, x: Candidate, y: Candidate, z: Candidate)
    ensures ChainVerdict(chain, x, x) == 0 && ChainVerdict(chain, x, y) == -ChainVerdict(chain, y, x)
    ensures ChainVerdict(chain, x, y) <= 0 && ChainVerdict(chain, y, z) <= 0 ==>
              && ChainVerdict(chain, x, z) <= 0
              && (ChainVerdict(chain, x, y) < 0 || ChainVerdict(chain, y, z) < 0 ==> ChainVerdict(chain, x, z) < 0)
  {
    if chain != [] {
      VerdictPreorder(chain[0], x, y, z);
      VerdictPreorder(chain[0], y, z, x);
      VerdictPreorder(chain[0], z, x, y);
      ChainPreorder(chain[1..], x, y, z);
    }
  }

  /** What each policy is named after decides, whatever the tie-breakers say. */
  lemma LeadingCriterionDecides(a: Candidate, b: Candidate)
    ensures a.expirationDate.Some? && b.expirationDate.Some? && CompareText(a.expirationDate.value, b.expirationDate.value) < 0 ==>
              ChainVerdict(ChainOf(FEFO), a, b) < 0
    ensures CompareText(a.entryDate, b.entryDate) < 0 ==>
              ChainVerdict(ChainOf(FIFO), a, b) < 0 && ChainVerdict(ChainOf(LIFO), a, b) > 0
    ensures CrossDocking(a) && !CrossDocking(b) ==> ChainVerdict(ChainOf(JIT), a, b) < 0
  {
    CompareTextAntisymmetric(a.entryDate, b.entryDate);
    if a.expirationDate.Some? && b.expirationDate.Some? {
      CompareTextAntisymmetric(a.expirationDate.value, b.expirationDate.value);
    }
  }

  /** Between candidates that the dates do not tell apart, picking locations come first and the location code decides last. */
  lemma TiesGoToPickingThenCode(policy: Policy, a: Candidate, b: Candidate)
    requires a.expirationDate == b.expirationDate && a.entryDate == b.entryDate && CrossDocking(a) == CrossDocking(b)
    ensures a.locationType == "PICKING" && b.locationType != "PICKING" ==> ChainVerdict(ChainOf(policy), a, b) < 0
    ensures (a.locationType == "PICKING") == (b.locationType == "PICKING") ==>
              ChainVerdict(ChainOf(policy), a, b) == CompareText(a.locationCode, b.locationCode)
  {
    CompareTextAntisymmetric(a.entryDate, a.entryDate);
    TieChain(policy, a, b);
  }

  /** The last two criteria are the same in every policy, and the others see no difference here. */
  lemma TieChain(policy: Policy, a: Candidate, b: Candidate)
    requires a.expirationDate == b.expirationDate && CompareText(a.entryDate, b.entryDate) == 0 && CrossDocking(a) == CrossDocking(b)
    ensures ChainVerdict(ChainOf(policy), a, b) == ChainVerdict([PickingFirst, LocationCodeAsc], a, b)
    ensures ChainVerdict([PickingFirst, LocationCodeAsc], a, b) ==
            if Verdict(PickingFirst, a, b) != 0 then Verdict(PickingFirst, a, b) else CompareText(a.locationCode, b.locationCode)
  {
    var last := [PickingFirst, LocationCodeAsc];
    assert last[1..] == [LocationCodeAsc] && [LocationCodeAsc][1..] == [];
    assert ChainVerdict([LocationCodeAsc], a, b) == CompareText(a.locationCode, b.locationCode);
    match policy
    case FEFO => SkipTwo(ExpirationAsc, EntryAsc, a, b);
    case FIFO => SkipTwo(EntryAsc, ExpirationAsc, a, b);
    case LIFO => Skip(EntryDesc, last, a, b);
    case JIT =>
      SkipTwo(EntryAsc, ExpirationAsc, a, b);
      Skip(CrossDockingFirst, [EntryAsc, ExpirationAsc, PickingFirst, LocationCodeAsc], a, b);
  }

  lemma Skip(c: Criterion, rest: Chain, a: Candidate, b: Candidate)
    requires Verdict(c, a, b) == 0
    ensures ChainVerdict([c] + rest, a, b) == ChainVerdict(rest, a, b)
  {
    assert ([c] + rest)[1..] == rest;
  }

  lemma SkipTwo(c: Criterion, d: Criterion, a: Candidate, b: Candidate)
    requires Verdict(c, a, b) == 0 && Verdict(d, a, b) == 0
    ensures ChainVerdict([c, d, PickingFirst, LocationCodeAsc], a, b) == ChainVerdict([PickingFirst, LocationCodeAsc], a, b)
  {
    assert [c, d, PickingFirst, LocationCodeAsc] == [c] + ([d] + [PickingFirst, LocationCodeAsc]);
    Skip(c, [d] + [PickingFirst, LocationCodeAsc], a, b);
    Skip(d, [PickingFirst, LocationCodeAsc], a, b);
  }

  /** A dated candidate always precedes an undated one, wherever dates are the deciding criterion. */
  lemma MissingExpiryIsLast(a: Candidate, b: Candidate)
    requires a.expirationDate.Some? && b.expirationDate.None?
    ensures ChainVerdict(ChainOf(FEFO), a, b) < 0
    ensures a.entryDate == b.entryDate ==> ChainVerdict(ChainOf(FIFO), a, b) < 0
  {
    CompareTextAntisymmetric(a.entryDate, b.entryDate);
    assert ChainOf(FIFO)[1..][0] == ExpirationAsc;
  }

  // ---- The order of each policy, written out ------------------------------------------------

  /** The smaller expiry; a missing one comes after all others. */
  predicate ExpiresBefore(a: Candidate, b: Candidate) {
    && a.expirationDate.Some?
    && (b.expirationDate.Some? ==> CompareText(a.expirationDate.value, b.expirationDate.value) < 0)
  }

  predicate EnteredBefore(a: Candidate, b: Candidate) {
    CompareText(a.entryDate, b.entryDate) < 0
  }

  /** A picking location before any other, and the smaller code between two or none. */
  predicate AtHandBefore(a: Candidate, b: Candidate) {
    || (a.locationType == "PICKING" && b.locationType != "PICKING")
    || ((a.locationType == "PICKING" <==> b.locationType == "PICKING") && CompareText(a.locationCode, b.locationCode) < 0)
  }

  predicate FifoBefore(a: Candidate, b: Candidate) {
    || EnteredBefore(a, b)
    || (a.entryDate == b.entryDate &&
        (ExpiresBefore(a, b) || (a.expirationDate == b.expirationDate && AtHandBefore(a, b))))
  }

  /** The dictionary order of each policy: which of two candidates leaves the warehouse first. */
  predicate GoesBefore(policy: Policy, a: Candidate, b: Candidate) {
    match policy
    case FEFO =>
      || ExpiresBefore(a, b)
      || (a.expirationDate == b.expirationDate &&
          (EnteredBefore(a, b) || (a.entryDate == b.entryDate && AtHandBefore(a, b))))
    case FIFO => FifoBefore(a, b)
    case LIFO => EnteredBefore(b, a) || (a.entryDate == b.entryDate && AtHandBefore(a, b))
    case JIT =>
      || (a.zoneType == "CROSS_DOCKING" && b.zoneType != "CROSS_DOCKING")
      || ((a.zoneType == "CROSS_DOCKING" <==> b.zoneType == "CROSS_DOCKING") && FifoBefore(a, b))
  }

  lemma TwoStepChain(c: Criterion, d: Criterion, a: Candidate, b: Candidate)
    ensures ChainVerdict([c, d, PickingFirst, LocationCodeAsc], a, b) < 0 <==>
            || Verdict(c, a, b) < 0
            || (Verdict(c, a, b) == 0 && (Verdict(d, a, b) < 0 || (Verdict(d, a, b) == 0 && AtHandBefore(a, b))))
  {
    var last := [PickingFirst, LocationCodeAsc];
    var rest := [d] + last;
    assert [c, d, PickingFirst, LocationCodeAsc][1..] == rest && rest[1..] == last;
    AtHandChain(a, b);
  }

  lemma AtHandChain(a: Candidate, b: Candidate)
    ensures ChainVerdict([PickingFirst, LocationCodeAsc], a, b) < 0 <==> AtHandBefore(a, b)
  {
    assert [PickingFirst, LocationCodeAsc][1..] == [LocationCodeAsc] && [LocationCodeAsc][1..] == [];
    assert ChainVerdict([LocationCodeAsc], a, b) == CompareText(a.locationCode, b.locationCode);
  }

  /** Each chain of comparators is the order of its policy, for every two candidates. */
  lemma PolicyIsItsDictionaryOrder(policy: Policy, a: Candidate, b: Candidate)
    ensures ChainVerdict(ChainOf(policy), a, b) < 0 <==> GoesBefore(policy, a, b)
    ensures ChainVerdict(ChainOf(policy), a, b) == 0 <==> !GoesBefore(policy, a, b) && !GoesBefore(policy, b, a)
  {
    OneSideOfTheOrder(policy, a, b);
    OneSideOfTheOrder(policy, b, a);
    ChainPreorder(ChainOf(policy), a, b, a);
  }

  lemma OneSideOfTheOrder(policy: Policy, a: Candidate, b: Candidate)
    ensures ChainVerdict(ChainOf(policy), a, b) < 0 <==> GoesBefore(policy, a, b)
  {
    CompareTextAntisymmetric(a.entryDate, b.entryDate);
    if a.expirationDate.Some? && b.expirationDate.Some? {
      CompareTextAntisymmetric(a.expirationDate.value, b.expirationDate.value);
    }
    match policy
    case FEFO => TwoStepChain(ExpirationAsc, EntryAsc, a, b);
    case FIFO => TwoStepChain(EntryAsc, ExpirationAsc, a, b);
    case LIFO =>
      assert ChainOf(LIFO)[1..] == [PickingFirst, LocationCodeAsc];
      AtHandChain(a, b);
    case JIT =>
      assert ChainOf(JIT)[1..] == [EntryAsc, ExpirationAsc, PickingFirst, LocationCodeAsc];
      TwoStepChain(EntryAsc, ExpirationAsc, a, b);
  }

  // ---- Stable sorting by a chain ------------------------------------------------------------

  function Insert(chain: Chain, x: Candidate, xs: seq<Candidate>): seq<Candidate> {
    if xs == [] then [x]
    else if ChainVerdict(chain, x, xs[0]) <= 0 then [x] + xs
    else [xs[0]] + Insert(chain, x, xs[1..])
  }

  /** Sorts a copy by the chain, keeping the given order of candidates the chain does not tell apart. */
  function OrderBy(chain: Chain, xs: seq<Candidate>): seq<Candidate> {
    if xs == [] then [] else Insert(chain, xs[0], OrderBy(chain, xs[1..]))
  }

  function OrderByPolicy(policy: Policy, xs: seq<Candidate>): seq<Candidate> {
    OrderBy(ChainOf(policy), xs)
  }

  ghost predicate Sorted(chain: Chain, xs: seq<Candidate>) {
    forall i, j :: 0 <= i < j < |xs| ==> ChainVerdict(chain, xs[i], xs[j]) <= 0
  }

  function Like(chain: Chain, x: Candidate): Candidate -> bool {
    (y: Candidate) => ChainVerdict(chain, x, y) == 0
  }

  /** The candidates of a list that the chain does not tell apart from `x`, in list order. */
  function Peers(chain: Chain, x: Candidate, xs: seq<Candidate>): seq<Candidate> {
    Filter(Like(chain, x), xs)
  }

  /** Sorted, and every group of indistinguishable candidates is kept whole and in order. */
  ghost predicate StableSortOf(chain: Chain, xs: seq<Candidate>, ys: seq<Candidate>) {
    Sorted(chain, ys) && forall x: Candidate :: Peers(chain, x, ys) == Peers(chain, x, xs)
  }

  lemma {:induction false} FilterCount<T>(p: T -> bool, xs: seq<T>, x: T)
    requires p(x)
    ensures multiset(Filter(p, xs))[x] == multiset(xs)[x]
  {
    if xs != [] {
      FilterCount(p, xs[1..], x);
      assert xs == [xs[0]] + xs[1..];
    }
  }

  lemma StableSortIsPermutation(chain: Chain, xs: seq<Candidate>, ys: seq<Candidate>)
    requires StableSortOf(chain, xs, ys)
    ensures multiset(ys) == multiset(xs)
  {
    forall x: Candidate ensures multiset(ys)[x] == multiset(xs)[x] {
      ChainPreorder(chain, x, x, x);
      FilterCount(Like(chain, x), xs, x);
      FilterCount(Like(chain, x), ys, x);
      assert Peers(chain, x, ys) == Peers(chain, x, xs);
    }
  }

  lemma {:induction false} InsertMembers(chain: Chain, x: Candidate, xs: seq<Candidate>)
    ensures multiset(Insert(chain, x, xs)) == multiset([x] + xs)
  {
    if xs != [] && ChainVerdict(chain, x, xs[0]) > 0 {
      InsertMembers(chain, x, xs[1..]);
      assert xs == [xs[0]] + xs[1..];
      assert multiset(Insert(chain, x, xs)) == multiset{xs[0]} + multiset([x] + xs[1..]);
    }
  }

  lemma {:induction false} InsertSorts(chain: Chain, x: Candidate, xs: seq<Candidate>)
    requires Sorted(chain, xs)
    ensures Sorted(chain, Insert(chain, x, xs))
  {
    if xs == [] {
    } else if ChainVerdict(chain, x, xs[0]) <= 0 {
      forall j | 0 <= j < |xs| ensures ChainVerdict(chain, x, xs[j]) <= 0 {
        ChainPreorder(chain, x, xs[0], xs[j]);
        ChainPreorder(chain, xs[0], xs[0], xs[0]);
      }
    } else {
      InsertSorts(chain, x, xs[1..]);
      InsertMembers(chain, x, xs[1..]);
      var rest := Insert(chain, x, xs[1..]);
      forall j | 0 <= j < |rest| ensures ChainVerdict(chain, xs[0], rest[j]) <= 0 {
        assert rest[j] in multiset(rest);
        assert rest[j] == x || rest[j] in xs[1..];
        ChainPreorder(chain, x, xs[0], x);
      }
    }
  }

  lemma PeersAreAlike(chain: Chain, y: Candidate, a: Candidate, b: Candidate)
    requires Like(chain, y)(a) && Like(chain, y)(b)
    ensures ChainVerdict(chain, a, b) == 0
  {
    ChainPreorder(chain, a, y, b);
    ChainPreorder(chain, y, a, y);
    ChainPreorder(chain, b, y, a);
    ChainPreorder(chain, a, b, y);
  }

  lemma {:induction false} InsertKeepsPeers(chain: Chain, x: Candidate, xs: seq<Candidate>, y: Candidate)
    requires Sorted(chain, xs)
    ensures Peers(chain, y, Insert(chain, x, xs)) == Peers(chain, y, [x] + xs)
  {
    if xs == [] {
      assert [x] + xs == [x];
    } else if ChainVerdict(chain, x, xs[0]) > 0 {
      InsertKeepsPeers(chain, x, xs[1..], y);
      var like := Like(chain, y);
      FilterConcat(like, [xs[0]], Insert(chain, x, xs[1..]));
      FilterConcat(like, [x], xs[1..]);
      FilterConcat(like, [x], xs);
      FilterConcat(like, [xs[0]], xs[1..]);
      assert xs == [xs[0]] + xs[1..];
      if like(x) && like(xs[0]) {
        PeersAreAlike(chain, y, x, xs[0]);
      }
      var rest := Filter(like, xs[1..]);
      assert Filter(like, [x]) == if like(x) then [x] else [];
      assert Filter(like, [xs[0]]) == if like(xs[0]) then [xs[0]] else [];
      assert Filter(like, [x] + xs) == Filter(like, [x]) + (Filter(like, [xs[0]]) + rest);
      assert Filter(like, Insert(chain, x, xs)) == Filter(like, [xs[0]]) + (Filter(like, [x]) + rest);
      if like(x) {
        assert Filter(like, [xs[0]]) == [];
      } else {
        assert Filter(like, [x]) == [];
      }
    }
  }

  /** Ordering by a chain is a stable sort. */
  lemma {:induction false} OrderIsStableSort(chain: Chain, xs: seq<Candidate>)
    ensures StableSortOf(chain, xs, OrderBy(chain, xs))
  {
    if xs != [] {
      OrderIsStableSort(chain, xs[1..]);
      var rest := OrderBy(chain, xs[1..]);
      InsertSorts(chain, xs[0], rest);
      forall y: Candidate ensures Peers(chain, y, OrderBy(chain, xs)) == Peers(chain, y, xs) {
        InsertKeepsPeers(chain, xs[0], rest, y);
        FilterConcat(Like(chain, y), [xs[0]], rest);
        FilterConcat(Like(chain, y), [xs[0]], xs[1..]);
        assert xs == [xs[0]] + xs[1..];
        assert Peers(chain, y, rest) == Peers(chain, y, xs[1..]);
      }
    }
  }

  lemma HeadIsLeast(chain: Chain, ys: seq<Candidate>, zs: seq<Candidate>)
    requires StableSortOf(chain, ys, zs) && Sorted(chain, ys) && ys != []
    ensures zs != [] && ChainVerdict(chain, zs[0], ys[0]) <= 0
  {
    ChainPreorder(chain, ys[0], ys[0], ys[0]);
    FilterMember(Like(chain, ys[0]), ys, ys[0]);
    assert Peers(chain, ys[0], zs) == Peers(chain, ys[0], ys);
    FilterMember(Like(chain, ys[0]), zs, ys[0]);
    var i :| 0 <= i < |zs| && zs[i] == ys[0];
    ChainPreorder(chain, zs[0], zs[0], zs[0]);
  }

  /** Two sorted lists with the same groups are the same list. */
  lemma {:induction false} SortedWithSamePeersIsEqual(chain: Chain, ys: seq<Candidate>, zs: seq<Candidate>)
    requires Sorted(chain, ys) && StableSortOf(chain, ys, zs)
    ensures ys == zs
    decreases |ys|
  {
    if ys == [] {
      if zs != [] {
        HeadIsLeast(chain, zs, ys);
      }
    } else {
      HeadIsLeast(chain, ys, zs);
      HeadIsLeast(chain, zs, ys);
      ChainPreorder(chain, ys[0], zs[0], ys[0]);
      ChainPreorder(chain, ys[0], ys[0], ys[0]);
      assert Peers(chain, ys[0], ys) == Peers(chain, ys[0], zs);
      assert ys[0] == Peers(chain, ys[0], ys)[0] == Peers(chain, ys[0], zs)[0] == zs[0];
      forall x: Candidate ensures Peers(chain, x, ys[1..]) == Peers(chain, x, zs[1..]) {
        assert Peers(chain, x, ys) == Peers(chain, x, zs);
        if Like(chain, x)(ys[0]) {
          assert Peers(chain, x, ys[1..]) == Peers(chain, x, ys)[1..];
          assert Peers(chain, x, zs[1..]) == Peers(chain, x, zs)[1..];
        }
      }
      SortedWithSamePeersIsEqual(chain, ys[1..], zs[1..]);
    }
  }

  /** There is exactly one stable sort of a list, so any stable sorting algorithm returns it. */
  lemma StableSortIsUnique(chain: Chain, xs: seq<Candidate>, ys: seq<Candidate>)
    ensures StableSortOf(chain, xs, ys) <==> ys == OrderBy(chain, xs)
  {
    OrderIsStableSort(chain, xs);
    if StableSortOf(chain, xs, ys) {
      forall x: Candidate ensures Peers(chain, x, ys) == Peers(chain, x, OrderBy(chain, xs)) {
        assert Peers(chain, x, ys) == Peers(chain, x, xs);
        assert Peers(chain, x, OrderBy(chain, xs)) == Peers(chain, x, xs);
      }
      SortedWithSamePeersIsEqual(chain, OrderBy(chain, xs), ys);
    }
  }

  /** The candidates of a list that a policy does not tell apart from `x`, in list order. */
  function TiedWith(policy: Policy, x: Candidate): Candidate -> bool {
    (y: Candidate) => !GoesBefore(policy, x, y) && !GoesBefore(policy, y, x)
  }

  /** The ordered list is the one in which nothing stands behind what it goes before, and ties keep their given order. */
  lemma OrderedExactly(policy: Policy, xs: seq<Candidate>, ys: seq<Candidate>)
    ensures ys == OrderByPolicy(policy, xs) <==>
            && (forall i, j :: 0 <= i < j < |ys| ==> !GoesBefore(policy, ys[j], ys[i]))
            && (forall x: Candidate :: Filter(TiedWith(policy, x), ys) == Filter(TiedWith(policy, x), xs))
  {
    var chain := ChainOf(policy);
    StableSortIsUnique(chain, xs, ys);
    forall a: Candidate, b: Candidate ensures ChainVerdict(chain, a, b) <= 0 <==> !GoesBefore(policy, b, a) {
      PolicyIsItsDictionaryOrder(policy, b, a);
      ChainPreorder(chain, a, b, a);
    }
    forall x: Candidate, zs: seq<Candidate> ensures Filter(TiedWith(policy, x), zs) == Peers(chain, x, zs) {
      forall y: Candidate ensures TiedWith(policy, x)(y) == Like(chain, x)(y) {
        PolicyIsItsDictionaryOrder(policy, x, y);
      }
      FilterAgree(TiedWith(policy, x), Like(chain, x), zs);
    }
  }

  // ---- Consequences -------------------------------------------------------------------------

  lemma {:induction false} FilterKeepsSorted(chain: Chain, p: Candidate -> bool, xs: seq<Candidate>)
    requires Sorted(chain, xs)
    ensures Sorted(chain, Filter(p, xs))
  {
    if xs != [] {
      FilterKeepsSorted(chain, p, xs[1..]);
      var rest := Filter(p, xs[1..]);
      forall j | 0 <= j < |rest| ensures ChainVerdict(chain, xs[0], rest[j]) <= 0 {
        FilterMember(p, xs[1..], rest[j]);
      }
    }
  }

  /** Filtering and ordering commute, for any filter. */
  lemma FilterCommutesWithOrder(chain: Chain, p: Candidate -> bool, xs: seq<Candidate>)
    ensures Filter(p, OrderBy(chain, xs)) == OrderBy(chain, Filter(p, xs))
  {
    OrderIsStableSort(chain, xs);
    FilterKeepsSorted(chain, p, OrderBy(chain, xs));
    forall x: Candidate
      ensures Peers(chain, x, Filter(p, OrderBy(chain, xs))) == Peers(chain, x, Filter(p, xs))
    {
      FilterCommute(Like(chain, x), p, OrderBy(chain, xs));
      FilterCommute(Like(chain, x), p, xs);
      assert Peers(chain, x, OrderBy(chain, xs)) == Peers(chain, x, xs);
    }
    StableSortIsUnique(chain, Filter(p, xs), Filter(p, OrderBy(chain, xs)));
  }

  function InCrossDocking(): Candidate -> bool {
    (c: Candidate) => CrossDocking(c)
  }

  function OutsideCrossDocking(): Candidate -> bool {
    (c: Candidate) => !CrossDocking(c)
  }

  lemma JitIsCrossDockingThenFifo(a: Candidate, b: Candidate)
    ensures ChainVerdict(ChainOf(JIT), a, b) ==
            if CrossDocking(a) && !CrossDocking(b) then -1
            else if !CrossDocking(a) && CrossDocking(b) then 1
            else ChainVerdict(ChainOf(FIFO), a, b)
  {
    assert ChainOf(JIT)[1..] == ChainOf(FIFO);
  }

  /** JIT order is the cross-docking candidates in FIFO order, followed by the others in FIFO order. */
  lemma JitOrderIsTwoFifos(xs: seq<Candidate>)
    ensures OrderByPolicy(JIT, xs) ==
            OrderByPolicy(FIFO, Filter(InCrossDocking(), xs)) + OrderByPolicy(FIFO, Filter(OutsideCrossDocking(), xs))
  {
    var jit, fifo := ChainOf(JIT), ChainOf(FIFO);
    var near, far := Filter(InCrossDocking(), xs), Filter(OutsideCrossDocking(), xs);
    var n, f := OrderBy(fifo, near), OrderBy(fifo, far);
    OrderIsStableSort(fifo, near);
    OrderIsStableSort(fifo, far);
    StableSortIsPermutation(fifo, near, n);
    StableSortIsPermutation(fifo, far, f);
    forall c: Candidate ensures (c in n ==> CrossDocking(c)) && (c in f ==> !CrossDocking(c)) {
      FilterMember(InCrossDocking(), xs, c);
      FilterMember(OutsideCrossDocking(), xs, c);
      assert (c in n <==> c in multiset(n)) && (c in f <==> c in multiset(f));
    }
    forall i, j | 0 <= i < j < |n + f| ensures ChainVerdict(jit, (n + f)[i], (n + f)[j]) <= 0 {
      JitIsCrossDockingThenFifo((n + f)[i], (n + f)[j]);
    }
    forall x: Candidate ensures Peers(jit, x, n + f) == Peers(jit, x, xs) {
      JitPeers(x, xs, near, far, n, f);
    }
    StableSortIsUnique(jit, xs, n + f);
  }

  lemma JitPeers(x: Candidate, xs: seq<Candidate>, near: seq<Candidate>, far: seq<Candidate>, n: seq<Candidate>, f: seq<Candidate>)
    requires near == Filter(InCrossDocking(), xs) && far == Filter(OutsideCrossDocking(), xs)
    requires Peers(ChainOf(FIFO), x, n) == Peers(ChainOf(FIFO), x, near)
    requires Peers(ChainOf(FIFO), x, f) == Peers(ChainOf(FIFO), x, far)
    requires forall c :: c in n ==> CrossDocking(c)
    requires forall c :: c in f ==> !CrossDocking(c)
    ensures Peers(ChainOf(JIT), x, n + f) == Peers(ChainOf(JIT), x, xs)
  {
    var jit, fifo := Like(ChainOf(JIT), x), Like(ChainOf(FIFO), x);
    var side := if CrossDocking(x) then InCrossDocking() else OutsideCrossDocking();
    forall c: Candidate ensures jit(c) == (fifo(c) && side(c)) {
      JitIsCrossDockingThenFifo(x, c);
    }
    FilterConcat(jit, n, f);
    FilterOfAnd(jit, fifo, side, xs);
    if CrossDocking(x) {
      FilterEmpty(jit, f);
      FilterAgree(jit, fifo, n);
      assert Filter(side, xs) == near;
    } else {
      FilterEmpty(jit, n);
      FilterAgree(jit, fifo, f);
      assert Filter(side, xs) == far;
    }
  }

  lemma {:induction false} FilterOfAnd<T(!new)>(p: T -> bool, q: T -> bool, r: T -> bool, xs: seq<T>)
    requires forall x: T :: p(x) == (q(x) && r(x))
    ensures Filter(p, xs) == Filter(q, Filter(r, xs))
  {
    if xs != [] {
      FilterOfAnd(p, q, r, xs[1..]);
    }
  }
}
