/** Restricting candidates to what can physically be reached, and consuming them in order. */
module Allocation {
  import opened Common
  import opened Text
  import opened PolicyOrder

  // ---- LIFO_PHYSICAL: only the latest entry of a channel is reachable ------------------------

  predicate LifoPhysical(c: Candidate) {
    c.accessPolicy == Some("LIFO_PHYSICAL")
  }

  /** Reachable among `all`: not in a LIFO channel, or no later entry stands in front of it there. */
  ghost predicate Reachable(all: seq<Candidate>, c: Candidate) {
    LifoPhysical(c) ==>
      forall d :: d in all && LifoPhysical(d) && d.channelKey == c.channelKey ==> CompareText(d.entryDate, c.entryDate) <= 0
  }

  ghost function ReachableIn(all: seq<Candidate>): Candidate -> bool {
    (c: Candidate) => Reachable(all, c)
  }

  ghost predicate LatestByChannel(latest: map<string, string>, seen: seq<Candidate>) {
    && (forall c :: c in seen && LifoPhysical(c) ==>
         c.channelKey in latest && CompareText(c.entryDate, latest[c.channelKey]) <= 0)
    && (forall ch :: ch in latest ==>
         exists c :: c in seen && LifoPhysical(c) && c.channelKey == ch && c.entryDate == latest[ch])
  }

  method RestrictToAccessiblePallets(candidates: seq<Candidate>) returns (accessible: seq<Candidate>)
    ensures accessible == Filter(ReachableIn(candidates), candidates)
  {
    var latest: map<string, string> := map[];
    for i := 0 to |candidates|
      invariant LatestByChannel(latest, candidates[..i])
    {
      var c := candidates[i];
      assert candidates[..i + 1] == candidates[..i] + [c];
      if LifoPhysical(c) {
        var before := latest;
        if c.channelKey !in latest || CompareText(c.entryDate, latest[c.channelKey]) > 0 {
          latest := latest[c.channelKey := c.entryDate];
        }
        LatestStep(before, candidates[..i], c, latest);
      }
    }
    assert candidates[..|candidates|] == candidates;
    var keep := (c: Candidate) => !LifoPhysical(c) || (c.channelKey in latest && latest[c.channelKey] == c.entryDate);
    accessible := Filter(keep, candidates);
    forall c | c in candidates ensures keep(c) == Reachable(candidates, c) {
      if LifoPhysical(c) {
        var d :| d in candidates && LifoPhysical(d) && d.channelKey == c.channelKey && d.entryDate == latest[c.channelKey];
        CompareTextAntisymmetric(c.entryDate, d.entryDate);
      }
    }
    FilterAgree(keep, ReachableIn(candidates), candidates);
  }

  lemma LatestStep(latest: map<string, string>, seen: seq<Candidate>, c: Candidate, next: map<string, string>)
    requires LatestByChannel(latest, seen) && LifoPhysical(c)
    requires next == if c.channelKey !in latest || CompareText(c.entryDate, latest[c.channelKey]) > 0
                     then latest[c.channelKey := c.entryDate] else latest
    ensures LatestByChannel(next, seen + [c])
  {
    CompareTextAntisymmetric(c.entryDate, c.entryDate);
    forall d | d in seen + [c] && LifoPhysical(d)
      ensures d.channelKey in next && CompareText(d.entryDate, next[d.channelKey]) <= 0
    {
      if d in seen && next != latest && c.channelKey in latest && d.channelKey == c.channelKey {
        CompareTextAntisymmetric(c.entryDate, latest[c.channelKey]);
        CompareTextTransitive(d.entryDate, latest[c.channelKey], c.entryDate);
      }
    }
    forall ch | ch in next
      ensures exists d :: d in seen + [c] && LifoPhysical(d) && d.channelKey == ch && d.entryDate == next[ch]
    {
      if next != latest && ch == c.channelKey {
        assert c in seen + [c];
      } else {
        var d :| d in seen && LifoPhysical(d) && d.channelKey == ch && d.entryDate == latest[ch];
        assert d in seen + [c];
      }
    }
  }

  /** It does not matter whether candidates are restricted before or after they are ordered. */
  lemma RestrictionCommutesWithOrder(chain: Chain, xs: seq<Candidate>)
    ensures Filter(ReachableIn(OrderBy(chain, xs)), OrderBy(chain, xs)) == OrderBy(chain, Filter(ReachableIn(xs), xs))
  {
    var ys := OrderBy(chain, xs);
    OrderIsStableSort(chain, xs);
    StableSortIsPermutation(chain, xs, ys);
    forall c: Candidate ensures c in xs <==> c in ys {
      assert (c in xs <==> c in multiset(xs)) && (c in ys <==> c in multiset(ys));
    }
    forall c | c in ys ensures ReachableIn(ys)(c) == ReachableIn(xs)(c) {
    }
    FilterAgree(ReachableIn(ys), ReachableIn(xs), ys);
    FilterCommutesWithOrder(chain, ReachableIn(xs), xs);
  }

  // ---- Greedy consumption -------------------------------------------------------------------

  function Positive(n: int): nat {
    if n < 0 then 0 else n
  }

  function Take(available: int, remaining: int): nat {
    Positive(Min(remaining, available))
  }

  /** How much is taken from each of the available quantities, in order. */
  function Takes(available: seq<int>, demand: int): seq<nat> {
    if available == [] then []
    else
      var t := Take(available[0], demand);
      [t] + Takes(available[1..], demand - t)
  }

  function Availables(cs: seq<Candidate>): seq<int> {
    seq(|cs|, i requires 0 <= i < |cs| => cs[i].qtyAvailable)
  }

  function Usable(available: seq<int>): seq<int> {
    seq(|available|, i requires 0 <= i < |available| => Positive(available[i]))
  }

  datatype Allocated = Allocated(candidate: Candidate, qty: int)

  /** The candidates something is taken from, paired with how much. */
  function Taken(cs: seq<Candidate>, takes: seq<nat>): seq<Allocated>
    requires |cs| == |takes|
  {
    if cs == [] then []
    else (if takes[0] > 0 then [Allocated(cs[0], takes[0])] else []) + Taken(cs[1..], takes[1..])
  }

  /** Where the consuming loop stands after `i` candidates. */
  ghost predicate Consumed(ordered: seq<Candidate>, demand: int, i: nat, taken: seq<nat>, remaining: int, allocations: seq<Allocated>) {
    && i <= |ordered| && |taken| == i
    && remaining == demand - Sum(taken)
    && Takes(Availables(ordered), demand) == taken + Takes(Availables(ordered[i..]), remaining)
    && allocations == Taken(ordered[..i], taken)
  }

  lemma ConsumedStep(ordered: seq<Candidate>, demand: int, i: nat, taken: seq<nat>, remaining: int, allocations: seq<Allocated>)
    requires i < |ordered| && Consumed(ordered, demand, i, taken, remaining, allocations)
    ensures var t := Take(ordered[i].qtyAvailable, remaining);
            Consumed(ordered, demand, i + 1, taken + [t], remaining - t,
                     allocations + if t > 0 then [Allocated(ordered[i], t)] else [])
  {
    var t := Take(ordered[i].qtyAvailable, remaining);
    assert Availables(ordered[i..])[1..] == Availables(ordered[i + 1..]);
    assert Takes(Availables(ordered[i..]), remaining) == [t] + Takes(Availables(ordered[i + 1..]), remaining - t);
    TakenSnoc(ordered[..i], taken, ordered[i], t);
    SumSnoc(taken, t);
    assert ordered[..i + 1] == ordered[..i] + [ordered[i]];
  }

  lemma ConsumedEnd(ordered: seq<Candidate>, demand: int, i: nat, taken: seq<nat>, remaining: int, allocations: seq<Allocated>)
    requires Consumed(ordered, demand, i, taken, remaining, allocations)
    requires i == |ordered| || remaining <= 0
    ensures |Takes(Availables(ordered), demand)| == |ordered|
    ensures allocations == Taken(ordered, Takes(Availables(ordered), demand))
    ensures remaining == demand - Sum(Takes(Availables(ordered), demand))
  {
    var rest := Takes(Availables(ordered[i..]), remaining);
    TakesLength(Availables(ordered), demand);
    TakesLength(Availables(ordered[i..]), remaining);
    if remaining <= 0 {
      NothingTaken(Availables(ordered[i..]), remaining);
    }
    SumOfZeros(rest);
    SumConcat(taken, rest);
    TakenConcat(ordered[..i], taken, ordered[i..], rest);
    TakenNothing(ordered[i..], rest);
    assert ordered == ordered[..i] + ordered[i..];
  }

  method AllocateDemand(ordered: seq<Candidate>, demand: int) returns (allocations: seq<Allocated>, shortfall: nat)
    ensures |Takes(Availables(ordered), demand)| == |ordered|
    ensures allocations == Taken(ordered, Takes(Availables(ordered), demand))
    ensures shortfall == Positive(demand - Sum(Takes(Availables(ordered), demand)))
  {
    allocations := [];
    var remaining := demand;
    ghost var taken: seq<nat> := [];
    var i := 0;
    assert ordered[0..] == ordered;
    while i < |ordered| && remaining > 0
      invariant Consumed(ordered, demand, i, taken, remaining, allocations)
    {
      ConsumedStep(ordered, demand, i, taken, remaining, allocations);
      var candidate := ordered[i];
      var qty := Min(remaining, candidate.qtyAvailable);
      taken := taken + [Take(candidate.qtyAvailable, remaining)];
      if qty > 0 {
        allocations := allocations + [Allocated(candidate, qty)];
        remaining := remaining - qty;
      }
      i := i + 1;
    }
    shortfall := if remaining > 0 then remaining else 0;
    ConsumedEnd(ordered, demand, i, taken, remaining, allocations);
  }

  lemma {:induction false} TakesLength(available: seq<int>, demand: int)
    ensures |Takes(available, demand)| == |available|
  {
    if available != [] {
      TakesLength(available[1..], demand - Take(available[0], demand));
    }
  }

  lemma {:induction false} NothingTaken(available: seq<int>, demand: int)
    requires demand <= 0
    ensures |Takes(available, demand)| == |available|
    ensures forall i :: 0 <= i < |available| ==> Takes(available, demand)[i] == 0
  {
    if available != [] {
      NothingTaken(available[1..], demand);
    }
  }

  lemma {:induction false} SumOfZeros(xs: seq<int>)
    requires forall i :: 0 <= i < |xs| ==> xs[i] == 0
    ensures Sum(xs) == 0
  {
    if xs != [] {
      SumOfZeros(xs[1..]);
    }
  }

  lemma {:induction false} TakenConcat(cs: seq<Candidate>, ts: seq<nat>, ds: seq<Candidate>, us: seq<nat>)
    requires |cs| == |ts| && |ds| == |us|
    ensures Taken(cs + ds, ts + us) == Taken(cs, ts) + Taken(ds, us)
  {
    if cs == [] {
      assert cs + ds == ds && ts + us == us;
    } else {
      var first := if ts[0] > 0 then [Allocated(cs[0], ts[0])] else [];
      TakenConcat(cs[1..], ts[1..], ds, us);
      assert (cs + ds)[1..] == cs[1..] + ds && (ts + us)[1..] == ts[1..] + us;
      assert (cs + ds)[0] == cs[0] && (ts + us)[0] == ts[0];
      assert Taken(cs + ds, ts + us) == first + Taken(cs[1..] + ds, ts[1..] + us);
      assert Taken(cs, ts) == first + Taken(cs[1..], ts[1..]);
    }
  }

  lemma TakenSnoc(cs: seq<Candidate>, ts: seq<nat>, c: Candidate, t: nat)
    requires |cs| == |ts|
    ensures Taken(cs + [c], ts + [t]) == Taken(cs, ts) + (if t > 0 then [Allocated(c, t)] else [])
  {
    TakenConcat(cs, ts, [c], [t]);
    assert Taken([c], [t]) == (if t > 0 then [Allocated(c, t)] else []) + [];
  }

  lemma {:induction false} TakenNothing(cs: seq<Candidate>, ts: seq<nat>)
    requires |cs| == |ts| && forall i :: 0 <= i < |ts| ==> ts[i] == 0
    ensures Taken(cs, ts) == []
  {
    if cs != [] {
      TakenNothing(cs[1..], ts[1..]);
    }
  }

  /** Amounts that respect what each candidate has and, together, the demand. */
  ghost predicate Feasible(available: seq<int>, demand: int, v: seq<nat>) {
    && |v| == |available|
    && (forall i :: 0 <= i < |v| ==> v[i] <= Positive(available[i]))
    && Sum(v) <= Positive(demand)
  }

  predicate LexAtMost(v: seq<nat>, w: seq<nat>)
    requires |v| == |w|
  {
    v == [] || v[0] < w[0] || (v[0] == w[0] && LexAtMost(v[1..], w[1..]))
  }

  /** The amounts taken are feasible and, in total, the smaller of the demand and all that is usable. */
  lemma {:induction false} TakesAreFeasible(available: seq<int>, demand: int)
    ensures Feasible(available, demand, Takes(available, demand))
    ensures Sum(Takes(available, demand)) == Min(Positive(demand), Sum(Usable(available)))
  {
    if available != [] {
      var t := Take(available[0], demand);
      TakesAreFeasible(available[1..], demand - t);
      assert Usable(available)[1..] == Usable(available[1..]);
      UsableSumNonNegative(available[1..]);
    }
  }

  lemma {:induction false} UsableSumNonNegative(available: seq<int>)
    ensures Sum(Usable(available)) >= 0
  {
    if available != [] {
      UsableSumNonNegative(available[1..]);
      assert Usable(available)[1..] == Usable(available[1..]);
    }
  }

  /** Nothing is taken from a candidate before every earlier one is used up. */
  lemma {:induction false} EarlierAreUsedUp(available: seq<int>, demand: int, i: nat, j: nat)
    requires i < j < |available|
    ensures |Takes(available, demand)| == |available|
    ensures Takes(available, demand)[j] > 0 ==> Takes(available, demand)[i] == Positive(available[i])
  {
    var t := Take(available[0], demand);
    TakesLength(available, demand);
    if i > 0 {
      EarlierAreUsedUp(available[1..], demand - t, i - 1, j - 1);
    } else if demand - t <= 0 {
      NothingTaken(available[1..], demand - t);
    }
  }

  /** Among all feasible amounts, the ones taken are the greatest in dictionary order. */
  lemma {:induction false} TakesAreLexGreatest(available: seq<int>, demand: int, v: seq<nat>)
    requires Feasible(available, demand, v)
    ensures |Takes(available, demand)| == |v|
    ensures LexAtMost(v, Takes(available, demand))
  {
    TakesLength(available, demand);
    if available != [] {
      var t := Take(available[0], demand);
      SumNonNegative(v[1..]);
      if v[0] == t {
        TakesAreLexGreatest(available[1..], demand - t, v[1..]);
      }
    }
  }

  lemma {:induction false} SumNonNegative(v: seq<nat>)
    ensures Sum(v) >= 0
  {
    if v != [] {
      SumNonNegative(v[1..]);
    }
  }

  lemma {:induction false} LexAntisymmetric(v: seq<nat>, w: seq<nat>)
    requires |v| == |w| && LexAtMost(v, w) && LexAtMost(w, v)
    ensures v == w
  {
    if v != [] {
      LexAntisymmetric(v[1..], w[1..]);
    }
  }

  /** Greedy consumption is the only feasible choice no other feasible choice exceeds. */
  lemma TakesAreTheLexGreatest(available: seq<int>, demand: int, v: seq<nat>)
    requires Feasible(available, demand, v)
    ensures |Takes(available, demand)| == |available|
    ensures v == Takes(available, demand) <==>
            forall w :: Feasible(available, demand, w) ==> LexAtMost(w, v)
  {
    var t := Takes(available, demand);
    TakesAreFeasible(available, demand);
    if v == t {
      forall w | Feasible(available, demand, w) ensures LexAtMost(w, v) {
        TakesAreLexGreatest(available, demand, w);
      }
    } else if forall w :: Feasible(available, demand, w) ==> LexAtMost(w, v) {
      TakesAreLexGreatest(available, demand, v);
      LexAntisymmetric(v, t);
    }
  }
}
