/** The event pipeline as a step machine: several publishers and fan-out workers, interleaved and failing anywhere. */
module EventPipelineRuns {
  import opened Common
  import opened EventPipeline

  /** A publisher's open transaction: the rows it has locked, how many it has dealt with, and those it has marked. */
  datatype Publisher = Publisher(batch: seq<Id>, next: nat, marked: set<Id>, aborted: bool)

  datatype Stage =
    /** Claimed; the delivery counter is still to be looked up. */
    | Claimed
    /** To be handled; `sighted` when the delivery counter is known. */
    | Ready(sighted: bool)
    | Published
    | Exhausted
    | Copied

  /** One delivery of one entry in the hands of some worker. */
  datatype Job = Job(entry: nat, ordinal: nat, stage: Stage)

  datatype World = World(
    rows: map<Id, Row>, entries: seq<Entry>, dlq: seq<nat>, publishers: map<Id, Publisher>, jobs: map<Id, Job>)

  datatype Step =
    | Emit(event: Event)
    | OpenBatch(p: Id, batch: seq<Id>)
    | Publish(p: Id, reply: Reply)
    | Commit(p: Id)
    | Abort(p: Id)
    | Read(j: Id, entry: nat)
    | Claim(j: Id, entry: nat)
    | Lookup(j: Id, works: bool)
    | Republish(j: Id, works: bool)
    | Copy(j: Id)
    | Ack(j: Id)
    /** The worker gives the delivery up: an error, a crash, or nothing left to do. */
    | Drop(j: Id)

  predicate LockedBySome(w: World, id: Id) {
    exists p :: p in w.publishers && id in w.publishers[p].batch
  }

  predicate MayAck(w: World, job: Job)
    requires job.entry < |w.entries|
  {
    job.stage.Published? || job.stage.Copied? || (job.stage.Ready? && w.entries[job.entry].event.topic.None?)
  }

  predicate JobAt(w: World, j: Id) {
    j in w.jobs && w.jobs[j].entry < |w.entries|
  }

  predicate Enabled(w: World, s: Step) {
    match s
    case Emit(event) => event.id !in w.rows
    case OpenBatch(p, batch) =>
      p !in w.publishers && forall id :: id in batch ==> id in w.rows && !w.rows[id].published && !LockedBySome(w, id)
    case Publish(p, reply) =>
      && p in w.publishers && w.publishers[p].next < |w.publishers[p].batch|
      && w.publishers[p].batch[w.publishers[p].next] in w.rows && (w.publishers[p].aborted ==> !reply.Marks?)
    case Commit(p) => p in w.publishers && !w.publishers[p].aborted && w.publishers[p].next == |w.publishers[p].batch|
    case Abort(p) => p in w.publishers
    case Read(j, e) =>
      j !in w.jobs && e < |w.entries| && w.entries[e].deliveries == 0 && IsModuleStream(StreamOf(w.entries[e].event))
    case Claim(j, e) =>
      && j !in w.jobs && e < |w.entries| && w.entries[e].deliveries > 0 && !w.entries[e].acked
      && IsModuleStream(StreamOf(w.entries[e].event))
    case Lookup(j, works) => JobAt(w, j) && w.jobs[j].stage.Claimed?
    case Republish(j, works) => JobAt(w, j) && w.jobs[j].stage.Ready? && w.entries[w.jobs[j].entry].event.topic.Some?
    case Copy(j) => JobAt(w, j) && w.jobs[j].stage.Exhausted?
    case Ack(j) => JobAt(w, j) && MayAck(w, w.jobs[j])
    case Drop(j) => j in w.jobs
  }

  function Delivered(w: World, j: Id, e: nat, stage: Stage): World
    requires e < |w.entries|
  {
    var n := w.entries[e].deliveries + 1;
    w.(entries := w.entries[e := w.entries[e].(deliveries := n)], jobs := w.jobs[j := Job(e, n, stage)])
  }

  function Next(maxRetries: nat, w: World, s: Step): World {
    if !Enabled(w, s) then w
    else
      match s
      case Emit(event) => w.(rows := w.rows[event.id := Row(event, false)])
      case OpenBatch(p, batch) => w.(publishers := w.publishers[p := Publisher(batch, 0, {}, false)])
      case Publish(p, reply) =>
        var t := w.publishers[p];
        var id := t.batch[t.next];
        w.(entries := if reply.AddFails? then w.entries else w.entries + [NewEntry(w.rows[id].event)],
           publishers := w.publishers[p := Publisher(t.batch, t.next + 1, if reply.Marks? then t.marked + {id} else t.marked,
                                                     t.aborted || reply.MarkFails?)])
      case Commit(p) =>
        w.(rows := map id | id in w.rows :: w.rows[id].(published := w.rows[id].published || id in w.publishers[p].marked),
           publishers := w.publishers - {p})
      case Abort(p) => w.(publishers := w.publishers - {p})
      case Read(j, e) => Delivered(w, j, e, Ready(true))
      case Claim(j, e) => Delivered(w, j, e, Claimed)
      case Lookup(j, works) =>
        var found := Found(w.entries[w.jobs[j].entry], works);
        w.(jobs := w.jobs[j := w.jobs[j].(stage := if CountOf(found) > maxRetries then Exhausted else Ready(found.Some?))])
      case Republish(j, works) =>
        var job := w.jobs[j];
        w.(entries := w.entries[job.entry := Tried(w.entries[job.entry], job.ordinal, job.stage.sighted, works)],
           jobs := if works then w.jobs[j := job.(stage := Published)] else w.jobs - {j})
      case Copy(j) => w.(dlq := w.dlq + [w.jobs[j].entry], jobs := w.jobs[j := w.jobs[j].(stage := Copied)])
      case Ack(j) =>
        var e := w.jobs[j].entry;
        w.(entries := w.entries[e := w.entries[e].(acked := true)], jobs := w.jobs - {j})
      case Drop(j) => w.(jobs := w.jobs - {j})
  }

  const START := World(map[], [], [], map[], map[])

  function Run(maxRetries: nat, steps: seq<Step>): World {
    if steps == [] then START else Next(maxRetries, Run(maxRetries, steps[..|steps| - 1]), steps[|steps| - 1])
  }

  // ---- The publishing half -----------------------------------------------------------------

  predicate OnStream(entries: seq<Entry>, event: Event) {
    exists e :: 0 <= e < |entries| && entries[e].event == event
  }

  predicate RowOk(entries: seq<Entry>, id: Id, row: Row) {
    row.event.id == id && (row.published ==> OnStream(entries, row.event))
  }

  predicate PublisherOk(rows: map<Id, Row>, entries: seq<Entry>, t: Publisher) {
    forall id :: id in t.marked ==> id in rows && OnStream(entries, rows[id].event)
  }

  ghost predicate PublishingOk(w: World) {
    && (forall id :: id in w.rows ==> RowOk(w.entries, id, w.rows[id]))
    && (forall p :: p in w.publishers ==> PublisherOk(w.rows, w.entries, w.publishers[p]))
  }

  /** Entries are only appended, and keep their events. */
  predicate SameEvents(entries: seq<Entry>, entries': seq<Entry>) {
    |entries| <= |entries'| && forall e :: 0 <= e < |entries| ==> entries'[e].event == entries[e].event
  }

  lemma StillOnStream(entries: seq<Entry>, entries': seq<Entry>, event: Event)
    requires OnStream(entries, event) && SameEvents(entries, entries')
    ensures OnStream(entries', event)
  {
    var e :| 0 <= e < |entries| && entries[e].event == event;
    assert entries'[e].event == event;
  }

  lemma StepKeepsEvents(maxRetries: nat, w: World, s: Step)
    ensures SameEvents(w.entries, Next(maxRetries, w, s).entries)
  {
  }

  lemma StepKeepsPublishing(maxRetries: nat, w: World, s: Step)
    requires PublishingOk(w)
    ensures PublishingOk(Next(maxRetries, w, s))
  {
    var w' := Next(maxRetries, w, s);
    StepKeepsEvents(maxRetries, w, s);
    forall id | id in w.rows && OnStream(w.entries, w.rows[id].event) ensures OnStream(w'.entries, w.rows[id].event) {
      StillOnStream(w.entries, w'.entries, w.rows[id].event);
    }
    if Enabled(w, s) && s.Publish? && s.reply.Marks? {
      var event := w.rows[w.publishers[s.p].batch[w.publishers[s.p].next]].event;
      assert w'.entries[|w.entries|].event == event;
    }
  }

  // ---- The fan-out half --------------------------------------------------------------------

  predicate DistinctOrdinals(attempts: seq<nat>) {
    forall i, j :: 0 <= i < j < |attempts| ==> attempts[i] != attempts[j]
  }

  /** An acknowledged entry was republished, unmapped or copied; each counted attempt is one of the first `maxRetries` deliveries. */
  predicate EntryOk(maxRetries: nat, dlq: seq<nat>, e: nat, entry: Entry) {
    && (entry.acked ==> entry.republished || entry.event.topic.None? || e in dlq)
    && DistinctOrdinals(entry.attempts)
    && (forall i :: 0 <= i < |entry.attempts| ==> 1 <= entry.attempts[i] <= maxRetries && entry.attempts[i] <= entry.deliveries)
    && (entry.deliveries == 0 ==> !entry.acked && !entry.republished && entry.blind == 0)
  }

  predicate JobOk(maxRetries: nat, entries: seq<Entry>, dlq: seq<nat>, job: Job) {
    && job.entry < |entries| && 1 <= job.ordinal <= entries[job.entry].deliveries
    && match job.stage
       case Claimed => job.ordinal !in entries[job.entry].attempts
       case Ready(sighted) => job.ordinal !in entries[job.entry].attempts && (sighted ==> job.ordinal <= maxRetries)
       case Published => entries[job.entry].republished
       case Exhausted => entries[job.entry].deliveries > maxRetries
       case Copied => job.entry in dlq
  }

  ghost predicate FanoutOk(maxRetries: nat, w: World) {
    && (forall e :: 0 <= e < |w.entries| ==> EntryOk(maxRetries, w.dlq, e, w.entries[e]))
    && (forall j :: j in w.jobs ==> JobOk(maxRetries, w.entries, w.dlq, w.jobs[j]))
    && (forall i, j :: i in w.jobs && j in w.jobs && w.jobs[i].entry == w.jobs[j].entry && w.jobs[i].ordinal == w.jobs[j].ordinal ==> i == j)
    && (forall i :: 0 <= i < |w.dlq| ==> w.dlq[i] < |w.entries| && w.entries[w.dlq[i]].deliveries > maxRetries)
  }

  /** One more delivery of an entry, in the hands of one more worker. */
  lemma DeliveryKeepsFanout(maxRetries: nat, w: World, j: Id, e: nat, stage: Stage)
    requires FanoutOk(maxRetries, w) && maxRetries >= 1 && j !in w.jobs && e < |w.entries|
    requires stage.Claimed? || (stage.Ready? && w.entries[e].deliveries == 0)
    ensures FanoutOk(maxRetries, Delivered(w, j, e, stage))
  {
    var w' := Delivered(w, j, e, stage);
    var n := w.entries[e].deliveries + 1;
    assert EntryOk(maxRetries, w.dlq, e, w.entries[e]);
    assert n !in w.entries[e].attempts;
    forall k | k in w.jobs ensures JobOk(maxRetries, w'.entries, w'.dlq, w.jobs[k]) && (w.jobs[k].entry == e ==> w.jobs[k].ordinal != n) {
      assert JobOk(maxRetries, w.entries, w.dlq, w.jobs[k]);
    }
    assert EntryOk(maxRetries, w'.dlq, e, w'.entries[e]);
    assert JobOk(maxRetries, w'.entries, w'.dlq, Job(e, n, stage));
  }

  lemma TriedIsOk(maxRetries: nat, dlq: seq<nat>, e: nat, entry: Entry, ordinal: nat, sighted: bool, ok: bool)
    requires EntryOk(maxRetries, dlq, e, entry) && 1 <= ordinal <= entry.deliveries
    requires sighted ==> ordinal <= maxRetries && ordinal !in entry.attempts
    ensures EntryOk(maxRetries, dlq, e, Tried(entry, ordinal, sighted, ok))
  {
  }

  /** Another delivery, of this entry or another, is not affected by the attempt. */
  lemma OtherJobStaysOk(maxRetries: nat, entries: seq<Entry>, dlq: seq<nat>, job: Job, e: nat, ordinal: nat, sighted: bool, ok: bool)
    requires JobOk(maxRetries, entries, dlq, job) && e < |entries| && (job.entry == e ==> job.ordinal != ordinal)
    ensures JobOk(maxRetries, entries[e := Tried(entries[e], ordinal, sighted, ok)], dlq, job)
  {
  }

  lemma RepublishKeepsFanout(maxRetries: nat, w: World, s: Step)
    requires FanoutOk(maxRetries, w) && s.Republish? && Enabled(w, s)
    ensures FanoutOk(maxRetries, Next(maxRetries, w, s))
  {
    var w', job := Next(maxRetries, w, s), w.jobs[s.j];
    var e, sighted := job.entry, job.stage.sighted;
    assert JobOk(maxRetries, w.entries, w.dlq, job) && EntryOk(maxRetries, w.dlq, e, w.entries[e]);
    TriedIsOk(maxRetries, w.dlq, e, w.entries[e], job.ordinal, sighted, s.works);
    forall j | j in w.jobs && j != s.j ensures JobOk(maxRetries, w'.entries, w.dlq, w.jobs[j]) {
      OtherJobStaysOk(maxRetries, w.entries, w.dlq, w.jobs[j], e, job.ordinal, sighted, s.works);
    }
    assert s.works ==> JobOk(maxRetries, w'.entries, w.dlq, job.(stage := Published));
  }

  /** A delivery moves on to its next stage. */
  lemma AdvanceKeepsFanout(maxRetries: nat, w: World, j: Id, stage: Stage)
    requires FanoutOk(maxRetries, w) && JobAt(w, j) && JobOk(maxRetries, w.entries, w.dlq, w.jobs[j].(stage := stage))
    ensures FanoutOk(maxRetries, w.(jobs := w.jobs[j := w.jobs[j].(stage := stage)]))
  {
  }

  lemma DropKeepsFanout(maxRetries: nat, w: World, j: Id)
    requires FanoutOk(maxRetries, w)
    ensures FanoutOk(maxRetries, w.(jobs := w.jobs - {j}))
  {
  }

  lemma AckKeepsFanout(maxRetries: nat, w: World, j: Id)
    requires FanoutOk(maxRetries, w) && Enabled(w, Ack(j))
    ensures FanoutOk(maxRetries, Next(maxRetries, w, Ack(j)))
  {
    var e := w.jobs[j].entry;
    var u := w.(entries := w.entries[e := w.entries[e].(acked := true)]);
    assert JobOk(maxRetries, w.entries, w.dlq, w.jobs[j]) && EntryOk(maxRetries, w.dlq, e, w.entries[e]);
    forall k | k in w.jobs ensures JobOk(maxRetries, u.entries, u.dlq, w.jobs[k]) {
      assert JobOk(maxRetries, w.entries, w.dlq, w.jobs[k]);
    }
    DropKeepsFanout(maxRetries, u, j);
  }

  lemma CopyKeepsFanout(maxRetries: nat, w: World, j: Id)
    requires FanoutOk(maxRetries, w) && Enabled(w, Copy(j))
    ensures FanoutOk(maxRetries, Next(maxRetries, w, Copy(j)))
  {
    var e := w.jobs[j].entry;
    var u := w.(dlq := w.dlq + [e]);
    assert JobOk(maxRetries, w.entries, w.dlq, w.jobs[j]);
    assert u.dlq[|w.dlq|] == e && forall k :: k in w.dlq ==> k in u.dlq;
    forall k | 0 <= k < |u.entries| ensures EntryOk(maxRetries, u.dlq, k, u.entries[k]) {
      assert EntryOk(maxRetries, w.dlq, k, w.entries[k]);
    }
    forall k | k in w.jobs ensures JobOk(maxRetries, u.entries, u.dlq, w.jobs[k]) {
      assert JobOk(maxRetries, w.entries, w.dlq, w.jobs[k]);
    }
    AdvanceKeepsFanout(maxRetries, u, j, Copied);
  }

  lemma LookupKeepsFanout(maxRetries: nat, w: World, s: Step)
    requires FanoutOk(maxRetries, w) && maxRetries >= 1 && s.Lookup? && Enabled(w, s)
    ensures FanoutOk(maxRetries, Next(maxRetries, w, s))
  {
    var job := w.jobs[s.j];
    assert JobOk(maxRetries, w.entries, w.dlq, job);
    var found := Found(w.entries[job.entry], s.works);
    AdvanceKeepsFanout(maxRetries, w, s.j, if CountOf(found) > maxRetries then Exhausted else Ready(found.Some?));
  }

  lemma StepKeepsFanout(maxRetries: nat, w: World, s: Step)
    requires FanoutOk(maxRetries, w) && maxRetries >= 1
    ensures FanoutOk(maxRetries, Next(maxRetries, w, s))
  {
    if Enabled(w, s) {
      match s
      case Read(j, e) => DeliveryKeepsFanout(maxRetries, w, j, e, Ready(true));
      case Claim(j, e) => DeliveryKeepsFanout(maxRetries, w, j, e, Stage.Claimed);
      case Lookup(_, _) => LookupKeepsFanout(maxRetries, w, s);
      case Republish(_, _) => RepublishKeepsFanout(maxRetries, w, s);
      case Copy(j) => CopyKeepsFanout(maxRetries, w, j);
      case Ack(j) => AckKeepsFanout(maxRetries, w, j);
      case Drop(j) => DropKeepsFanout(maxRetries, w, j);
      case _ => AppendKeepsFanout(maxRetries, w, Next(maxRetries, w, s));
    }
  }

  /** Publishing at most appends an entry that nobody has seen. */
  lemma AppendKeepsFanout(maxRetries: nat, w: World, w': World)
    requires FanoutOk(maxRetries, w) && w'.jobs == w.jobs && w'.dlq == w.dlq && w.entries <= w'.entries
    requires forall e :: |w.entries| <= e < |w'.entries| ==> w'.entries[e] == NewEntry(w'.entries[e].event)
    ensures FanoutOk(maxRetries, w')
  {
    forall e | 0 <= e < |w'.entries| ensures EntryOk(maxRetries, w'.dlq, e, w'.entries[e]) {
      assert e < |w.entries| ==> EntryOk(maxRetries, w.dlq, e, w.entries[e]);
    }
    forall j | j in w'.jobs ensures JobOk(maxRetries, w'.entries, w'.dlq, w'.jobs[j]) {
      assert JobOk(maxRetries, w.entries, w.dlq, w.jobs[j]);
    }
  }

  lemma {:induction false} InvOfRun(maxRetries: nat, steps: seq<Step>)
    requires maxRetries >= 1
    ensures PublishingOk(Run(maxRetries, steps)) && FanoutOk(maxRetries, Run(maxRetries, steps))
  {
    if steps != [] {
      var front := steps[..|steps| - 1];
      InvOfRun(maxRetries, front);
      StepKeepsPublishing(maxRetries, Run(maxRetries, front), steps[|steps| - 1]);
      StepKeepsFanout(maxRetries, Run(maxRetries, front), steps[|steps| - 1]);
    }
  }

  // ---- What holds in every interleaving ----------------------------------------------------

  /**
   Nothing is lost: a row marked published has a stream entry, and an acknowledged entry was
   republished, has no topic, or lies on the dead-letter stream after more than `maxRetries` deliveries.
   */
  lemma NothingIsLost(maxRetries: nat, steps: seq<Step>)
    requires maxRetries >= 1
    ensures var w := Run(maxRetries, steps);
            forall id :: id in w.rows && w.rows[id].published ==> OnStream(w.entries, w.rows[id].event)
    ensures var w := Run(maxRetries, steps);
            forall e :: 0 <= e < |w.entries| && w.entries[e].acked ==>
              w.entries[e].republished || w.entries[e].event.topic.None? || (e in w.dlq && w.entries[e].deliveries > maxRetries)
  {
    InvOfRun(maxRetries, steps);
    var w := Run(maxRetries, steps);
    forall id | id in w.rows && w.rows[id].published ensures OnStream(w.entries, w.rows[id].event) {
      assert RowOk(w.entries, id, w.rows[id]);
    }
    forall e | 0 <= e < |w.entries| && w.entries[e].acked
      ensures w.entries[e].republished || w.entries[e].event.topic.None? || (e in w.dlq && w.entries[e].deliveries > maxRetries)
    {
      assert EntryOk(maxRetries, w.dlq, e, w.entries[e]);
    }
  }

  lemma {:induction false} DistinctBelow(xs: seq<nat>, n: nat)
    requires DistinctOrdinals(xs) && forall i :: 0 <= i < |xs| ==> 1 <= xs[i] <= n
    ensures |xs| <= n
  {
    assert xs != [] ==> 1 <= xs[0] && xs[0] <= n;
    if n in xs {
      var k :| 0 <= k < |xs| && xs[k] == n;
      var ys := xs[..k] + xs[k + 1..];
      forall i | 0 <= i < |ys| ensures ys[i] == xs[if i < k then i else i + 1] {
      }
      DistinctBelow(ys, n - 1);
    } else if n > 0 {
      DistinctBelow(xs, n - 1);
    }
  }

  /** No entry gets more than `maxRetries` publish attempts that were made knowing the delivery counter. */
  lemma RetriesAreBounded(maxRetries: nat, steps: seq<Step>, e: nat)
    requires maxRetries >= 1 && e < |Run(maxRetries, steps).entries|
    ensures |Run(maxRetries, steps).entries[e].attempts| <= maxRetries
  {
    InvOfRun(maxRetries, steps);
    var w := Run(maxRetries, steps);
    assert EntryOk(maxRetries, w.dlq, e, w.entries[e]);
    DistinctBelow(w.entries[e].attempts, maxRetries);
  }

  /** Every lookup of the delivery counter finds it. */
  predicate SightedRun(maxRetries: nat, steps: seq<Step>) {
    steps == [] ||
    (var w, s := Run(maxRetries, steps[..|steps| - 1]), steps[|steps| - 1];
     && SightedRun(maxRetries, steps[..|steps| - 1])
     && (s.Lookup? && Enabled(w, s) ==> Found(w.entries[w.jobs[s.j].entry], s.works).Some?))
  }

  ghost predicate NeverBlind(w: World) {
    && (forall e :: 0 <= e < |w.entries| ==> w.entries[e].blind == 0)
    && (forall j :: j in w.jobs && w.jobs[j].stage.Ready? ==> w.jobs[j].stage.sighted)
  }

  lemma {:induction false} SightedRunIsNeverBlind(maxRetries: nat, steps: seq<Step>)
    requires SightedRun(maxRetries, steps)
    ensures NeverBlind(Run(maxRetries, steps))
  {
    if steps != [] {
      SightedRunIsNeverBlind(maxRetries, steps[..|steps| - 1]);
    }
  }

  /** When every lookup finds the counter, no entry gets more than `maxRetries` publish attempts at all. */
  lemma SightedRetriesAreBounded(maxRetries: nat, steps: seq<Step>, e: nat)
    requires maxRetries >= 1 && e < |Run(maxRetries, steps).entries| && SightedRun(maxRetries, steps)
    ensures |Run(maxRetries, steps).entries[e].attempts| + Run(maxRetries, steps).entries[e].blind <= maxRetries
  {
    RetriesAreBounded(maxRetries, steps, e);
    SightedRunIsNeverBlind(maxRetries, steps);
  }

  lemma OnlyReadingDelivers(maxRetries: nat, w: World, s: Step, e: nat)
    requires e < |Next(maxRetries, w, s).entries| && !IsModuleStream(StreamOf(Next(maxRetries, w, s).entries[e].event))
    ensures Next(maxRetries, w, s).entries[e].deliveries == if e < |w.entries| then w.entries[e].deliveries else 0
  {
  }

  /** An entry on a stream that the fan-out does not discover is never delivered. */
  lemma {:induction false} UndiscoveredIsNeverDelivered(maxRetries: nat, steps: seq<Step>, e: nat)
    requires e < |Run(maxRetries, steps).entries| && !IsModuleStream(StreamOf(Run(maxRetries, steps).entries[e].event))
    ensures Run(maxRetries, steps).entries[e].deliveries == 0
  {
    if steps != [] {
      var front := steps[..|steps| - 1];
      OnlyReadingDelivers(maxRetries, Run(maxRetries, front), steps[|steps| - 1], e);
      StepKeepsEvents(maxRetries, Run(maxRetries, front), steps[|steps| - 1]);
      if e < |Run(maxRetries, front).entries| {
        UndiscoveredIsNeverDelivered(maxRetries, front, e);
      }
    }
  }
}
