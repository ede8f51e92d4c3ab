/** From outbox to fan-out: at-least-once publishing, acknowledgement, bounded retries and the dead-letter stream. */
module EventPipeline {
  import opened Common

  // ---- Events and streams ------------------------------------------------------------------

  /** `topic` is what the event resolves to; unmapped event types have none. */
  datatype Event = Event(id: Id, eventType: string, topic: Option<Id>)

  const DLQ_STREAM: string := "events:dlq"

  /** The event type up to its first dot. */
  function ModuleOf(eventType: string): string {
    if eventType == [] || eventType[0] == '.' then [] else [eventType[0]] + ModuleOf(eventType[1..])
  }

  /** It is the longest beginning without a dot: all of the type when there is none. */
  lemma {:induction false} ModuleIsUpToTheDot(eventType: string)
    ensures var m := ModuleOf(eventType);
            && m <= eventType && '.' !in m && (|m| < |eventType| ==> eventType[|m|] == '.')
  {
    if eventType != [] && eventType[0] != '.' {
      ModuleIsUpToTheDot(eventType[1..]);
      var m := ModuleOf(eventType[1..]);
      assert ModuleOf(eventType) == [eventType[0]] + m;
      assert eventType == [eventType[0]] + eventType[1..];
    }
  }

  function StreamOf(event: Event): string {
    "events:" + ModuleOf(event.eventType)
  }

  /** The streams that the fan-out discovers among those named "events:". */
  predicate IsModuleStream(name: string) {
    name != DLQ_STREAM && !(DLQ_STREAM + ":" <= name)
  }

  /** An event reaches the fan-out exactly when its module is not named like the dead-letter stream. */
  lemma DiscoveredExactly(event: Event)
    ensures IsModuleStream(StreamOf(event)) <==> ModuleOf(event.eventType) != "dlq" && !("dlq:" <= ModuleOf(event.eventType))
  {
    var m := ModuleOf(event.eventType);
    var s := StreamOf(event);
    assert s[..7] == "events:" && s[7..] == m;
    assert DLQ_STREAM[7..] == "dlq" && (DLQ_STREAM + ":")[7..] == "dlq:";
    if s == DLQ_STREAM {
      assert m == "dlq";
    }
    if DLQ_STREAM + ":" <= s {
      assert s[..11] == DLQ_STREAM + ":";
      assert m[..4] == s[7..11] == "dlq:";
    }
    if "dlq:" <= m {
      assert s[..11] == "events:" + m[..4];
    }
  }

  /** An outbox row. The table is read in ascending event id. */
  datatype Row = Row(event: Event, published: bool)

  /**
   A stream entry of the consumer group: how often it was delivered, whether it is acknowledged, and
   a history: the deliveries on which a publish was attempted with the delivery counter known, how
   many attempts were made without knowing it, and whether one succeeded.
   */
  datatype Entry = Entry(event: Event, deliveries: nat, acked: bool, attempts: seq<nat>, blind: nat, republished: bool)

  function NewEntry(event: Event): Entry {
    Entry(event, 0, false, [], 0, false)
  }

  // ---- The publisher -----------------------------------------------------------------------

  /** What happens to one event of a batch: on the stream, and then on its row. */
  datatype Reply = AddFails | AddUnconfirmed | MarkFails | Marks

  /** The positions of the first `limit` rows neither published nor locked elsewhere. */
  function BatchOf(rows: seq<Row>, locked: set<Id>, limit: nat): seq<nat> {
    if rows == [] then []
    else
      var n := |rows| - 1;
      var before := BatchOf(rows[..n], locked, limit);
      if |before| < limit && !rows[n].published && rows[n].event.id !in locked then before + [n] else before
  }

  lemma {:induction false} BatchIsUnpublished(rows: seq<Row>, locked: set<Id>, limit: nat)
    ensures var b := BatchOf(rows, locked, limit);
            && |b| <= limit
            && (forall j :: 0 <= j < |b| ==> b[j] < |rows| && !rows[b[j]].published && rows[b[j]].event.id !in locked)
            && (forall i, j :: 0 <= i < j < |b| ==> b[i] < b[j])
            && (|b| < limit ==> forall i :: 0 <= i < |rows| && !rows[i].published && rows[i].event.id !in locked ==> i in b)
            && (forall i :: 0 <= i < |rows| && !rows[i].published && rows[i].event.id !in locked && i !in b ==>
                  |b| == limit && forall j :: 0 <= j < |b| ==> b[j] < i)
  {
    if rows != [] {
      BatchIsUnpublished(rows[..|rows| - 1], locked, limit);
    }
  }

  /** The entries a batch leaves on the streams, whether or not its transaction commits. */
  function Added(rows: seq<Row>, batch: seq<nat>, replies: seq<Reply>): seq<Entry>
    requires |batch| <= |replies| && forall j :: 0 <= j < |batch| ==> batch[j] < |rows|
  {
    if batch == [] then []
    else
      var n := |batch| - 1;
      Added(rows, batch[..n], replies) + (if replies[n].AddFails? then [] else [NewEntry(rows[batch[n]].event)])
  }

  predicate MarkedBy(batch: seq<nat>, replies: seq<Reply>, i: nat)
    requires |batch| <= |replies|
  {
    exists j :: 0 <= j < |batch| && batch[j] == i && replies[j].Marks?
  }

  function MarkedRows(rows: seq<Row>, batch: seq<nat>, replies: seq<Reply>): (r: seq<Row>)
    requires |batch| <= |replies|
    ensures |r| == |rows| && forall i :: 0 <= i < |r| ==> r[i] == rows[i].(published := rows[i].published || MarkedBy(batch, replies, i))
  {
    seq(|rows|, i requires 0 <= i < |rows| => rows[i].(published := rows[i].published || MarkedBy(batch, replies, i)))
  }

  predicate CommitPossible(batch: seq<nat>, replies: seq<Reply>)
    requires |batch| <= |replies|
  {
    forall j :: 0 <= j < |batch| ==> !replies[j].MarkFails?
  }

  class OutboxPublisher {
    const batchSize: nat
    var rows: seq<Row>
    var entries: seq<Entry>

    constructor (batchSize: nat)
      ensures this.batchSize == batchSize && rows == [] && entries == []
    {
      this.batchSize := batchSize;
      rows, entries := [], [];
    }

    method SelectBatch(locked: set<Id>) returns (batch: seq<nat>)
      ensures batch == BatchOf(rows, locked, batchSize)
    {
      batch := [];
      for i := 0 to |rows|
        invariant batch == BatchOf(rows[..i], locked, batchSize)
      {
        assert rows[..i + 1][..i] == rows[..i];
        if |batch| < batchSize && !rows[i].published && rows[i].event.id !in locked {
          batch := batch + [i];
        }
      }
      assert rows[..|rows|] == rows;
    }

    /** Adds each event to its stream and marks its row, in the transaction's own view of the table. */
    method PublishEach(batch: seq<nat>, replies: seq<Reply>) returns (updated: seq<Row>, aborted: bool)
      requires |batch| <= |replies| && forall j :: 0 <= j < |batch| ==> batch[j] < |rows|
      modifies this`entries
      ensures entries == old(entries) + Added(rows, batch, replies)
      ensures aborted == !CommitPossible(batch, replies)
      ensures !aborted ==> updated == MarkedRows(rows, batch, replies)
    {
      updated, aborted := rows, false;
      for j := 0 to |batch|
        invariant |updated| == |rows|
        invariant entries == old(entries) + Added(rows, batch[..j], replies)
        invariant aborted == !CommitPossible(batch[..j], replies)
        invariant !aborted ==> updated == MarkedRows(rows, batch[..j], replies)
      {
        assert batch[..j + 1][..j] == batch[..j];
        if !replies[j].AddFails? {
          entries := entries + [NewEntry(rows[batch[j]].event)];
        }
        MarkNext(rows, batch, replies, j);
        if replies[j].MarkFails? {
          aborted := true;
        } else if replies[j].Marks? && !aborted {
          updated := updated[batch[j] := updated[batch[j]].(published := true)];
        }
      }
      assert batch[..|batch|] == batch;
    }

    /**
     One poll. Failures of single events are swallowed; a failed row update also dooms the
     transaction, whose rows then stay unpublished although their entries are on the streams.
     */
    method PollBatch(locked: set<Id>, replies: seq<Reply>, commits: bool) returns (committed: bool)
      requires |replies| >= batchSize
      modifies this
      ensures |BatchOf(old(rows), locked, batchSize)| <= |replies|
      ensures forall j :: 0 <= j < |BatchOf(old(rows), locked, batchSize)| ==> BatchOf(old(rows), locked, batchSize)[j] < |old(rows)|
      ensures var batch := BatchOf(old(rows), locked, batchSize);
              && entries == old(entries) + Added(old(rows), batch, replies)
              && committed == (commits && CommitPossible(batch, replies))
              && rows == if committed then MarkedRows(old(rows), batch, replies) else old(rows)
    {
      var batch := SelectBatch(locked);
      BatchIsUnpublished(rows, locked, batchSize);
      var updated, aborted := PublishEach(batch, replies);
      committed := commits && !aborted;
      if committed {
        rows := updated;
      }
    }
  }

  /** One more event of the batch. */
  lemma MarkNext(rows: seq<Row>, batch: seq<nat>, replies: seq<Reply>, j: nat)
    requires j < |batch| <= |replies| && batch[j] < |rows|
    ensures CommitPossible(batch[..j + 1], replies) <==> CommitPossible(batch[..j], replies) && !replies[j].MarkFails?
    ensures MarkedRows(rows, batch[..j + 1], replies) ==
            if replies[j].Marks? then
              MarkedRows(rows, batch[..j], replies)[batch[j] := MarkedRows(rows, batch[..j], replies)[batch[j]].(published := true)]
            else MarkedRows(rows, batch[..j], replies)
  {
    forall i | 0 <= i < |rows|
      ensures MarkedBy(batch[..j + 1], replies, i) <==> MarkedBy(batch[..j], replies, i) || (batch[j] == i && replies[j].Marks?)
    {
      if MarkedBy(batch[..j + 1], replies, i) {
        var k :| 0 <= k < j + 1 && batch[..j + 1][k] == i && replies[k].Marks?;
        assert k < j ==> batch[..j][k] == i;
      }
      if MarkedBy(batch[..j], replies, i) {
        var k :| 0 <= k < j && batch[..j][k] == i && replies[k].Marks?;
        assert batch[..j + 1][k] == i;
      }
      if batch[j] == i && replies[j].Marks? {
        assert batch[..j + 1][j] == i;
      }
    }
    if CommitPossible(batch[..j + 1], replies) {
      assert !replies[j].MarkFails?;
    }
  }

  /** Whatever a batch marks is on its stream, in the order of the outbox. */
  lemma {:induction false} MarkedIsAdded(rows: seq<Row>, batch: seq<nat>, replies: seq<Reply>, i: nat)
    requires |batch| <= |replies| && i < |rows| && forall j :: 0 <= j < |batch| ==> batch[j] < |rows|
    requires MarkedBy(batch, replies, i)
    ensures exists k :: 0 <= k < |Added(rows, batch, replies)| && Added(rows, batch, replies)[k] == NewEntry(rows[i].event)
  {
    var n := |batch| - 1;
    var before, added := Added(rows, batch[..n], replies), Added(rows, batch, replies);
    var j :| 0 <= j < |batch| && batch[j] == i && replies[j].Marks?;
    if j < n {
      assert batch[..n][j] == i;
      MarkedIsAdded(rows, batch[..n], replies, i);
      var k :| 0 <= k < |before| && before[k] == NewEntry(rows[i].event);
      assert added[k] == before[k];
    } else {
      assert added[|before|] == NewEntry(rows[i].event);
    }
  }

  // ---- The fan-out -------------------------------------------------------------------------

  /** A publish attempt on delivery number `ordinal`. */
  function Tried(e: Entry, ordinal: nat, sighted: bool, ok: bool): Entry {
    e.(attempts := if sighted then e.attempts + [ordinal] else e.attempts,
       blind := if sighted then e.blind else e.blind + 1,
       republished := e.republished || ok)
  }

  /** Publish, and acknowledge only what was published or has no topic. */
  function Handled(e: Entry, ordinal: nat, sighted: bool, publishes: bool, acks: bool): Entry {
    if e.event.topic.None? then (if acks then e.(acked := true) else e)
    else
      var tried := Tried(e, ordinal, sighted, publishes);
      if publishes && acks then tried.(acked := true) else tried
  }

  /** What the lookup of the delivery counter finds: nothing for an acknowledged entry, or when it fails. */
  function Found(e: Entry, works: bool): Option<nat> {
    if works && e.deliveries > 0 && !e.acked then Some(e.deliveries) else None
  }

  function CountOf(found: Option<nat>): nat {
    if found.Some? then found.value else 1
  }

  datatype ClaimReply = ClaimReply(lookupWorks: bool, publishes: bool, acks: bool, copies: bool)

  datatype Group = Group(entries: seq<Entry>, dlq: seq<nat>)

  /** What becomes of one claimed entry, already counted as delivered once more. */
  function CleanedOne(g: Group, maxRetries: nat, e: nat, reply: ClaimReply): Group
    requires e < |g.entries|
  {
    var found := Found(g.entries[e], reply.lookupWorks);
    if CountOf(found) > maxRetries then
      if !reply.copies then g
      else Group(if reply.acks then g.entries[e := g.entries[e].(acked := true)] else g.entries, g.dlq + [e])
    else
      g.(entries := g.entries[e := Handled(g.entries[e], g.entries[e].deliveries, found.Some?, reply.publishes, reply.acks)])
  }

  /** Claiming counts one more delivery of each claimed entry. */
  function ClaimedAll(entries: seq<Entry>, claimed: seq<nat>): (r: seq<Entry>)
    ensures |r| == |entries|
  {
    seq(|entries|, i requires 0 <= i < |entries| =>
      if i in claimed then entries[i].(deliveries := entries[i].deliveries + 1) else entries[i])
  }

  function CleanedAll(g: Group, maxRetries: nat, claimed: seq<nat>, replies: seq<ClaimReply>): (r: Group)
    requires |claimed| <= |replies| && forall j :: 0 <= j < |claimed| ==> claimed[j] < |g.entries|
    ensures |r.entries| == |g.entries|
  {
    if claimed == [] then g
    else
      var n := |claimed| - 1;
      CleanedOne(CleanedAll(g, maxRetries, claimed[..n], replies), maxRetries, claimed[n], replies[n])
  }

  /** Only an entry with a topic is published; it is acknowledged when that worked, and one without a topic at once. */
  predicate HandledAs(e: Entry, ordinal: nat, sighted: bool, publishes: bool, acks: bool, after: Entry) {
    var attempted := e.event.topic.Some?;
    && after.event == e.event && after.deliveries == e.deliveries
    && after.acked == (e.acked || (acks && (attempted ==> publishes)))
    && after.republished == (e.republished || (attempted && publishes))
    && after.attempts == (if attempted && sighted then e.attempts + [ordinal] else e.attempts)
    && after.blind == (if attempted && !sighted then e.blind + 1 else e.blind)
  }

  /**
   A claimed entry delivered more than `maxRetries` times, as far as the counter can be read, is copied to the dead-letter
   stream and then acknowledged; any other is handled once more, blindly when the counter cannot be read.
   */
  lemma CleanedExactly(g: Group, maxRetries: nat, e: nat, reply: ClaimReply)
    requires e < |g.entries|
    ensures var h := CleanedOne(g, maxRetries, e, reply);
            var before := g.entries[e];
            var known := reply.lookupWorks && before.deliveries > 0 && !before.acked;
            && |h.entries| == |g.entries| && (forall i :: 0 <= i < |g.entries| && i != e ==> h.entries[i] == g.entries[i])
            && if (if known then before.deliveries else 1) > maxRetries then
                 && h.dlq == (if reply.copies then g.dlq + [e] else g.dlq)
                 && h.entries[e] == before.(acked := before.acked || (reply.copies && reply.acks))
               else
                 && h.dlq == g.dlq
                 && HandledAs(before, before.deliveries, known, reply.publishes, reply.acks, h.entries[e])
  {
  }

  class FanoutWorker {
    const maxRetries: nat
    var entries: seq<Entry>
    var dlq: seq<nat>

    constructor (maxRetries: nat)
      ensures this.maxRetries == maxRetries && State() == Group([], [])
    {
      this.maxRetries := maxRetries;
      entries, dlq := [], [];
    }

    function State(): Group
      reads this
    {
      Group(entries, dlq)
    }

    method HandleMessage(e: nat, ordinal: nat, sighted: bool, publishes: bool, acks: bool) returns (acked: bool)
      requires e < |entries|
      modifies this`entries
      ensures entries == old(entries)[e := Handled(old(entries)[e], ordinal, sighted, publishes, acks)]
      ensures HandledAs(old(entries)[e], ordinal, sighted, publishes, acks, entries[e])
      ensures acked ==> entries[e].acked && (entries[e].republished || entries[e].event.topic.None?)
    {
      if entries[e].event.topic.None? {
        if acks {
          entries := entries[e := entries[e].(acked := true)];
        }
        return acks;
      }
      entries := entries[e := Tried(entries[e], ordinal, sighted, publishes)];
      if !publishes || !acks {
        return false;
      }
      entries := entries[e := entries[e].(acked := true)];
      return true;
    }

    /** Copy first, acknowledge afterwards. */
    method MoveToDlq(e: nat, copies: bool, acks: bool)
      requires e < |entries|
      modifies this
      ensures dlq == if copies then old(dlq) + [e] else old(dlq)
      ensures entries == if copies && acks then old(entries)[e := old(entries)[e].(acked := true)] else old(entries)
    {
      if copies {
        dlq := dlq + [e];
        if acks {
          entries := entries[e := entries[e].(acked := true)];
        }
      }
    }

    /** One claimed entry: count, then dead-letter or retry. */
    method CleanupDeadLetter(e: nat, reply: ClaimReply)
      requires e < |entries|
      modifies this
      ensures State() == CleanedOne(old(State()), maxRetries, e, reply)
    {
      var found := if reply.lookupWorks && entries[e].deliveries > 0 && !entries[e].acked then Some(entries[e].deliveries) else None;
      var deliveryCount := if found.Some? then found.value else 1;
      if deliveryCount > maxRetries {
        MoveToDlq(e, reply.copies, reply.acks);
      } else {
        var acked := HandleMessage(e, entries[e].deliveries, found.Some?, reply.publishes, reply.acks);
      }
    }

    method CleanupDeadLetters(claimed: seq<nat>, replies: seq<ClaimReply>)
      requires |claimed| <= |replies| && forall j :: 0 <= j < |claimed| ==> claimed[j] < |entries|
      modifies this
      ensures State() == CleanedAll(Group(ClaimedAll(old(entries), claimed), old(dlq)), maxRetries, claimed, replies)
    {
      entries := ClaimedAll(entries, claimed);
      ghost var start := Group(entries, dlq);
      for j := 0 to |claimed|
        invariant |entries| == |start.entries|
        invariant State() == CleanedAll(start, maxRetries, claimed[..j], replies)
      {
        assert claimed[..j + 1][..j] == claimed[..j];
        CleanupDeadLetter(claimed[j], replies[j]);
      }
      assert claimed[..|claimed|] == claimed;
    }
  }
}
