/** Exactly which publish attempts escape the retry limit, counted over whole runs. */
module EventPipelineLimits {
  import opened Common
  import opened EventPipeline
  import opened EventPipelineRuns

  // ---- Blind attempts ----------------------------------------------------------------------

  /** The step concerns delivery `j`. */
  predicate Touches(s: Step, j: Id) {
    match s
    case Read(k, _) => k == j
    case Claim(k, _) => k == j
    case Lookup(k, _) => k == j
    case Republish(k, _) => k == j
    case Copy(k) => k == j
    case Ack(k) => k == j
    case Drop(k) => k == j
    case _ => false
  }

  /** The lookup fails, or another worker has acknowledged the entry by then. */
  predicate LooksInVain(w: World, s: Step) {
    s.Lookup? && Enabled(w, s) && (!s.works || w.entries[w.jobs[s.j].entry].acked)
  }

  /** The last thing that happened to delivery `j` was a lookup in vain. */
  predicate BlindSince(maxRetries: nat, steps: seq<Step>, j: Id) {
    steps != [] &&
    var w, s := Run(maxRetries, steps[..|steps| - 1]), steps[|steps| - 1];
    if Enabled(w, s) && Touches(s, j) then LooksInVain(w, s) else BlindSince(maxRetries, steps[..|steps| - 1], j)
  }

  predicate ReadyBlind(w: World, j: Id) {
    j in w.jobs && w.jobs[j].stage == Ready(false)
  }

  lemma UntouchedStays(maxRetries: nat, w: World, s: Step, j: Id)
    requires !(Enabled(w, s) && Touches(s, j))
    ensures j in Next(maxRetries, w, s).jobs <==> j in w.jobs
    ensures j in w.jobs ==> Next(maxRetries, w, s).jobs[j] == w.jobs[j]
  {
  }

  lemma TouchedIsBlindExactly(maxRetries: nat, w: World, s: Step, j: Id)
    requires maxRetries >= 1 && FanoutOk(maxRetries, w) && Enabled(w, s) && Touches(s, j)
    ensures ReadyBlind(Next(maxRetries, w, s), j) <==> LooksInVain(w, s)
  {
    if s.Lookup? {
      assert JobOk(maxRetries, w.entries, w.dlq, w.jobs[j]);
    }
  }

  /** A delivery is about to be handled without its counter exactly when it was last looked up in vain. */
  lemma {:induction false} ReadyBlindExactly(maxRetries: nat, steps: seq<Step>, j: Id)
    requires maxRetries >= 1
    ensures ReadyBlind(Run(maxRetries, steps), j) <==> BlindSince(maxRetries, steps, j)
  {
    if steps != [] {
      var front, s := steps[..|steps| - 1], steps[|steps| - 1];
      var w := Run(maxRetries, front);
      ReadyBlindExactly(maxRetries, front, j);
      InvOfRun(maxRetries, front);
      if Enabled(w, s) && Touches(s, j) {
        TouchedIsBlindExactly(maxRetries, w, s, j);
      } else {
        UntouchedStays(maxRetries, w, s, j);
      }
    }
  }

  // ---- Counting attempts over a run --------------------------------------------------------

  /** The step tries to publish entry `e`. */
  predicate Tries(w: World, s: Step, e: nat) {
    s.Republish? && Enabled(w, s) && w.jobs[s.j].entry == e
  }

  /** How often a run tries to publish entry `e`. */
  function Attempts(maxRetries: nat, steps: seq<Step>, e: nat): nat {
    if steps == [] then 0
    else
      var front, s := steps[..|steps| - 1], steps[|steps| - 1];
      Attempts(maxRetries, front, e) + (if Tries(Run(maxRetries, front), s, e) then 1 else 0)
  }

  /** How often it does so on a delivery whose counter was last looked up in vain. */
  function BlindAttempts(maxRetries: nat, steps: seq<Step>, e: nat): nat {
    if steps == [] then 0
    else
      var front, s := steps[..|steps| - 1], steps[|steps| - 1];
      BlindAttempts(maxRetries, front, e)
        + (if Tries(Run(maxRetries, front), s, e) && BlindSince(maxRetries, front, s.j) then 1 else 0)
  }

  function HistoryOf(w: World, e: nat): (nat, nat) {
    if e < |w.entries| then (|w.entries[e].attempts|, w.entries[e].blind) else (0, 0)
  }

  lemma TryIsRecorded(maxRetries: nat, w: World, s: Step, e: nat)
    ensures var (known, blind) := HistoryOf(w, e);
            HistoryOf(Next(maxRetries, w, s), e) ==
              if !Tries(w, s, e) then (known, blind) else if ReadyBlind(w, s.j) then (known, blind + 1) else (known + 1, blind)
  {
    if Enabled(w, s) && s.Republish? {
      assert w.jobs[s.j].stage.Ready?;
    }
  }

  /** The history of an entry counts its attempts: those made with the counter known, and the others. */
  lemma {:induction false} HistoryCountsAttempts(maxRetries: nat, steps: seq<Step>, e: nat)
    requires maxRetries >= 1
    ensures var (known, blind) := HistoryOf(Run(maxRetries, steps), e);
            blind == BlindAttempts(maxRetries, steps, e) && known + blind == Attempts(maxRetries, steps, e)
  {
    if steps != [] {
      var front, s := steps[..|steps| - 1], steps[|steps| - 1];
      HistoryCountsAttempts(maxRetries, front, e);
      TryIsRecorded(maxRetries, Run(maxRetries, front), s, e);
      if s.Republish? {
        ReadyBlindExactly(maxRetries, front, s.j);
      }
    }
  }

  /** In every run, an entry is tried at most `maxRetries` times, and once more for each attempt after a lookup in vain. */
  lemma AttemptsAreBounded(maxRetries: nat, steps: seq<Step>, e: nat)
    requires maxRetries >= 1
    ensures Attempts(maxRetries, steps, e) <= maxRetries + BlindAttempts(maxRetries, steps, e)
  {
    HistoryCountsAttempts(maxRetries, steps, e);
    if e < |Run(maxRetries, steps).entries| {
      RetriesAreBounded(maxRetries, steps, e);
    }
  }

  // ---- The bound is reached ----------------------------------------------------------------

  /** An event with a topic, on a stream that the fan-out discovers. */
  predicate Deliverable(event: Event) {
    event.topic.Some? && IsModuleStream(StreamOf(event))
  }

  lemma StockEventsAreDeliverable(id: Id, topic: Id)
    ensures Deliverable(Event(id, "estoque.saldo_alterado", Some(topic)))
  {
    DiscoveredExactly(Event(id, "estoque.saldo_alterado", Some(topic)));
    assert ModuleOf("estoque.saldo_alterado")[0] == 'e';
  }

  lemma RunSnoc(maxRetries: nat, steps: seq<Step>, s: Step)
    ensures Run(maxRetries, steps + [s]) == Next(maxRetries, Run(maxRetries, steps), s)
  {
    assert (steps + [s])[..|steps|] == steps;
  }

  /** One unacknowledged entry, in nobody's hands. */
  predicate AtRest(w: World, entry: Entry) {
    w.jobs == map[] && w.entries == [entry] && Deliverable(entry.event) && !entry.acked
  }

  /** The same entry in the hands of one worker, at its latest delivery. */
  predicate InHand(w: World, entry: Entry, stage: Stage) {
    w.jobs == map[0 := Job(0, entry.deliveries, stage)] && w.entries == [entry] && Deliverable(entry.event) && !entry.acked
  }

  lemma EntryIsRead(maxRetries: nat, w: World, entry: Entry)
    requires AtRest(w, entry) && entry.deliveries == 0
    ensures InHand(Next(maxRetries, w, Read(0, 0)), entry.(deliveries := 1), Ready(true))
  {
    assert [entry][0 := entry.(deliveries := 1)] == [entry.(deliveries := 1)];
  }

  lemma EntryIsClaimed(maxRetries: nat, w: World, entry: Entry)
    requires AtRest(w, entry) && entry.deliveries > 0
    ensures InHand(Next(maxRetries, w, Claim(0, 0)), entry.(deliveries := entry.deliveries + 1), Claimed)
  {
    var more := entry.(deliveries := entry.deliveries + 1);
    assert [entry][0 := more] == [more];
  }

  lemma EntryIsLookedUp(maxRetries: nat, w: World, entry: Entry, works: bool)
    requires maxRetries >= 1 && InHand(w, entry, Claimed) && entry.deliveries > 0 && (works ==> entry.deliveries <= maxRetries)
    ensures InHand(Next(maxRetries, w, Lookup(0, works)), entry, Ready(works))
  {
  }

  lemma AttemptFails(maxRetries: nat, w: World, entry: Entry, sighted: bool)
    requires InHand(w, entry, Ready(sighted))
    ensures AtRest(Next(maxRetries, w, Republish(0, false)), Tried(entry, entry.deliveries, sighted, false))
  {
    var tried := Tried(entry, entry.deliveries, sighted, false);
    assert [entry][0 := tried] == [tried];
    assert w.jobs - {0} == map[];
  }

  lemma EntryIsPublished(maxRetries: nat, event: Event) returns (steps: seq<Step>)
    requires Deliverable(event)
    ensures AtRest(Run(maxRetries, steps), NewEntry(event))
  {
    RunSnoc(maxRetries, [], Emit(event));
    RunSnoc(maxRetries, [Emit(event)], OpenBatch(0, [event.id]));
    RunSnoc(maxRetries, [Emit(event), OpenBatch(0, [event.id])], Publish(0, Marks));
    assert [] + [Emit(event)] == [Emit(event)];
    assert [Emit(event)] + [OpenBatch(0, [event.id])] == [Emit(event), OpenBatch(0, [event.id])];
    steps := [Emit(event), OpenBatch(0, [event.id])] + [Publish(0, Marks)];
    assert [] + [NewEntry(event)] == [NewEntry(event)];
  }

  /** One more delivery, looked up with or without success, whose attempt fails. */
  lemma OneMoreAttempt(maxRetries: nat, steps: seq<Step>, entry: Entry, works: bool) returns (more: seq<Step>, tried: Entry)
    requires maxRetries >= 1 && AtRest(Run(maxRetries, steps), entry) && entry.deliveries > 0
    requires works ==> entry.deliveries < maxRetries
    ensures AtRest(Run(maxRetries, more), tried) && tried.deliveries == entry.deliveries + 1
    ensures |tried.attempts| == |entry.attempts| + (if works then 1 else 0) && tried.blind == entry.blind + (if works then 0 else 1)
  {
    var claimed := entry.(deliveries := entry.deliveries + 1);
    EntryIsClaimed(maxRetries, Run(maxRetries, steps), entry);
    RunSnoc(maxRetries, steps, Claim(0, 0));
    EntryIsLookedUp(maxRetries, Run(maxRetries, steps + [Claim(0, 0)]), claimed, works);
    RunSnoc(maxRetries, steps + [Claim(0, 0)], Lookup(0, works));
    AttemptFails(maxRetries, Run(maxRetries, steps + [Claim(0, 0)] + [Lookup(0, works)]), claimed, works);
    RunSnoc(maxRetries, steps + [Claim(0, 0)] + [Lookup(0, works)], Republish(0, false));
    more := steps + [Claim(0, 0)] + [Lookup(0, works)] + [Republish(0, false)];
    tried := Tried(claimed, claimed.deliveries, works, false);
  }

  /** An entry read once and then claimed again and again, first with lookups that work and then with others. */
  lemma {:induction false} FailsSoOften(maxRetries: nat, event: Event, known: nat, blind: nat) returns (steps: seq<Step>, entry: Entry)
    requires Deliverable(event) && 1 <= known <= maxRetries
    ensures AtRest(Run(maxRetries, steps), entry) && entry.deliveries == known + blind
    ensures |entry.attempts| == known && entry.blind == blind
    decreases known + blind
  {
    if blind > 0 {
      steps, entry := FailsSoOften(maxRetries, event, known, blind - 1);
      steps, entry := OneMoreAttempt(maxRetries, steps, entry, false);
    } else if known > 1 {
      steps, entry := FailsSoOften(maxRetries, event, known - 1, 0);
      steps, entry := OneMoreAttempt(maxRetries, steps, entry, true);
    } else {
      var published := EntryIsPublished(maxRetries, event);
      EntryIsRead(maxRetries, Run(maxRetries, published), NewEntry(event));
      RunSnoc(maxRetries, published, Read(0, 0));
      entry := NewEntry(event).(deliveries := 1);
      AttemptFails(maxRetries, Run(maxRetries, published + [Read(0, 0)]), entry, true);
      RunSnoc(maxRetries, published + [Read(0, 0)], Republish(0, false));
      steps := published + [Read(0, 0)] + [Republish(0, false)];
      entry := Tried(entry, 1, true, false);
    }
  }

  /** For every limit, every deliverable event and every number of lookups in vain, some run tries an entry exactly so often. */
  lemma BoundIsReached(maxRetries: nat, event: Event, blind: nat) returns (steps: seq<Step>)
    requires maxRetries >= 1 && Deliverable(event)
    ensures BlindAttempts(maxRetries, steps, 0) == blind && Attempts(maxRetries, steps, 0) == maxRetries + blind
  {
    var entry;
    steps, entry := FailsSoOften(maxRetries, event, maxRetries, blind);
    HistoryCountsAttempts(maxRetries, steps, 0);
  }

  /** Published, read, tried in vain, claimed, looked up in vain, tried again. */
  predicate SecondTryAfterFailedLookup(steps: seq<Step>, event: Event) {
    && |steps| == 8 && steps[0] == Emit(event) && steps[1] == OpenBatch(0, [event.id]) && steps[2] == Publish(0, Marks)
    && steps[3] == Read(0, 0) && steps[4] == Republish(0, false)
    && steps[5] == Claim(0, 0) && steps[6] == Lookup(0, false) && steps[7] == Republish(0, false)
  }

  function TriedOnce(event: Event): Entry {
    Tried(NewEntry(event).(deliveries := 1), 1, true, false)
  }

  lemma FirstTryFails(steps: seq<Step>, event: Event)
    requires Deliverable(event) && SecondTryAfterFailedLookup(steps, event)
    ensures AtRest(Run(1, steps[..5]), TriedOnce(event))
  {
    FirstThreePublish(steps, event);
    EntryIsRead(1, Run(1, steps[..3]), NewEntry(event));
    RunTakes(steps, 3);
    AttemptFails(1, Run(1, steps[..4]), NewEntry(event).(deliveries := 1), true);
    RunTakes(steps, 4);
  }

  lemma LookupFails(steps: seq<Step>, event: Event)
    requires Deliverable(event) && SecondTryAfterFailedLookup(steps, event)
    ensures InHand(Run(1, steps[..7]), TriedOnce(event).(deliveries := 2), Ready(false))
  {
    FirstTryFails(steps, event);
    EntryIsClaimed(1, Run(1, steps[..5]), TriedOnce(event));
    RunTakes(steps, 5);
    EntryIsLookedUp(1, Run(1, steps[..6]), TriedOnce(event).(deliveries := 2), false);
    RunTakes(steps, 6);
  }

  /** With a limit of one: a first attempt fails, the lookup of the second delivery fails, and the entry is tried again. */
  lemma TriedTwiceUnderALimitOfOne(steps: seq<Step>, event: Event)
    requires Deliverable(event) && SecondTryAfterFailedLookup(steps, event)
    ensures Attempts(1, steps, 0) == 2 && BlindAttempts(1, steps, 0) == 1
  {
    LookupFails(steps, event);
    AttemptFails(1, Run(1, steps[..7]), TriedOnce(event).(deliveries := 2), false);
    RunTakes(steps, 7);
    assert steps[..8] == steps;
    HistoryCountsAttempts(1, steps, 0);
  }

  lemma RunTakes(steps: seq<Step>, n: nat)
    requires n < |steps|
    ensures Run(1, steps[..n + 1]) == Next(1, Run(1, steps[..n]), steps[n])
  {
    assert steps[..n + 1][..n] == steps[..n];
  }

  lemma FirstThreePublish(steps: seq<Step>, event: Event)
    requires Deliverable(event) && |steps| >= 3 && steps[0] == Emit(event) && steps[1] == OpenBatch(0, [event.id]) && steps[2] == Publish(0, Marks)
    ensures AtRest(Run(1, steps[..3]), NewEntry(event))
  {
    assert steps[..0] == [];
    RunTakes(steps, 0);
    RunTakes(steps, 1);
    RunTakes(steps, 2);
  }
}
