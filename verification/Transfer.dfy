/**
 * Moving records from one worker process to the master, by pull or by push.
 * Batches and acks travel over a network that may lose, duplicate, delay and
 * reorder them: a message once sent stays deliverable any number of times.
 */
module Transfer {
  import opened WorkerQueues

  datatype Message = Batch(items: seq<Record>) | Ack(ids: seq<nat>)

  /**
   * The worker (queue, acked records whose onAck call is pending or done), the
   * network, and the master (records gone through, metadata handed to ingest).
   * `accepted` is every record the queue ever held in this process.
   */
  datatype Cluster = Cluster(
    queue: QueueState, accepted: seq<Record>, removed: seq<Record>,
    pending: seq<Record>, released: seq<Record>,
    network: set<Message>, processed: set<Record>, ingested: seq<Metadata>)

  datatype Event =
    | Offer(md: Metadata)                          // Enqueue
    | SendBatch(limit: int)                        // a pull answered, or a push sent
    | Process(batch: seq<Record>)                  // the master goes through a batch and acks it
    | Interrupted(batch: seq<Record>, count: nat)  // the master stops inside a batch, without an ack
    | Deliver(ids: seq<nat>)                       // an ack reaches the worker
    | Release(index: nat)                          // one of the outstanding onAck calls

  /** The master ingests 20-byte and 32-byte infohashes and skips others; it acks both. */
  predicate Ingestible(r: Record) {
    |r.metadata.infoHash| == 20 || |r.metadata.infoHash| == 32
  }

  function Ingest(items: seq<Record>): seq<Metadata> {
    if items == [] then [] else
    (if Ingestible(items[0]) then [items[0].metadata] else []) + Ingest(items[1..])
  }

  function WithMaster(c: Cluster, items: seq<Record>): Cluster {
    c.(processed := c.processed + (set r | r in items), ingested := c.ingested + Ingest(items))
  }

  /** Steps that are not possible leave the cluster as it is. */
  function Next(c: Cluster, e: Event): Cluster {
    match e
    case Offer(md) =>
      var (q, ok) := Enqueued(c.queue, md);
      if ok then c.(queue := q, accepted := c.accepted + [Record(q.nextID, md)]) else c.(queue := q)
    case SendBatch(limit) => c.(network := c.network + {Batch(BatchOf(c.queue, limit))})
    case Process(batch) =>
      if Batch(batch) !in c.network then c else
      WithMaster(c, batch).(network := c.network + {Ack(IdsOf(batch))})
    case Interrupted(batch, count) =>
      if Batch(batch) !in c.network || count > |batch| then c else WithMaster(c, batch[..count])
    case Deliver(ids) =>
      if Ack(ids) !in c.network then c else
      var gone := Removed(c.queue.items, Elements(ids));
      c.(queue := Acked(c.queue, Elements(ids)), removed := c.removed + gone, pending := c.pending + gone)
    case Release(i) =>
      if i >= |c.pending| then c else
      c.(pending := c.pending[..i] + c.pending[i + 1..], released := c.released + [c.pending[i]])
  }

  function Init(limit: int, file: seq<Record>): Cluster {
    Cluster(Restored(limit, file), file, [], [], [], {}, {}, [])
  }

  function Run(limit: int, file: seq<Record>, events: seq<Event>): Cluster {
    if events == [] then Init(limit, file)
    else Next(Run(limit, file, events[..|events| - 1]), events[|events| - 1])
  }

  // -------------------------------------------------------------- invariants

  /** Worker side: conservation of records and of onAck calls. */
  ghost predicate WorkerInv(c: Cluster) {
    && Conserved(c.queue, c.accepted, c.removed)
    && multiset(c.removed) == multiset(c.pending) + multiset(c.released)
  }

  /** An acked ID belongs to an accepted record that the master has processed. */
  ghost predicate AckOk(c: Cluster, id: nat) {
    exists r :: r in c.accepted && r.id == id && r in c.processed
  }

  ghost predicate MessageOk(c: Cluster, m: Message) {
    match m
    case Batch(items) => forall r :: r in items ==> r in c.accepted
    case Ack(ids) => forall id :: id in ids ==> AckOk(c, id)
  }

  /** What was ingested is the metadata of a processed record with an infohash of 20 or 32 bytes. */
  ghost predicate ComesFrom(c: Cluster, md: Metadata) {
    exists r :: r in c.processed && r in c.accepted && r.metadata == md && (|md.infoHash| == 20 || |md.infoHash| == 32)
  }

  ghost predicate MasterInv(c: Cluster) {
    && (forall m :: m in c.network ==> MessageOk(c, m))
    && (forall r :: r in c.processed && Ingestible(r) ==> r.metadata in c.ingested)
    && (forall md :: md in c.ingested ==> ComesFrom(c, md))
    && (forall r :: r in c.removed ==> r in c.processed)
  }

  lemma {:induction false} IngestCovers(items: seq<Record>)
    ensures forall r :: r in items && Ingestible(r) ==> r.metadata in Ingest(items)
    ensures forall md :: md in Ingest(items) ==> exists r :: r in items && r.metadata == md && Ingestible(r)
  {
    if items != [] {
      IngestCovers(items[1..]);
    }
  }

  /** A batch whose infohashes all have 20 or 32 bytes is ingested whole and in order. */
  lemma {:induction false} IngestInOrder(items: seq<Record>)
    requires forall r :: r in items ==> |r.metadata.infoHash| == 20 || |r.metadata.infoHash| == 32
    ensures Ingest(items) == MetadataOf(items)
  {
    if items != [] {
      IngestInOrder(items[1..]);
      assert MetadataOf(items) == [items[0].metadata] + MetadataOf(items[1..]);
    }
  }

  lemma AscendingByID(items: seq<Record>, r: Record, r': Record)
    requires Ascending(items) && r in items && r' in items && r.id == r'.id
    ensures r == r'
  {
    var i :| 0 <= i < |items| && items[i] == r;
    var j :| 0 <= j < |items| && items[j] == r';
  }

  lemma ReleaseKeepsWorkerInv(c: Cluster, i: nat)
    requires WorkerInv(c)
    ensures WorkerInv(Next(c, Release(i)))
  {
    if i < |c.pending| {
      assert c.pending == c.pending[..i] + [c.pending[i]] + c.pending[i + 1..];
    }
  }

  lemma OfferKeepsWorkerInv(c: Cluster, md: Metadata)
    requires WorkerInv(c)
    ensures WorkerInv(Next(c, Offer(md)))
  {
    if Enqueued(c.queue, md).1 {
      OfferConserves(c.queue, c.accepted, c.removed, md);
    }
  }

  lemma DeliverKeepsWorkerInv(c: Cluster, ids: seq<nat>)
    requires WorkerInv(c)
    ensures WorkerInv(Next(c, Deliver(ids)))
  {
    AckConserves(c.queue, c.accepted, c.removed, Elements(ids));
  }

  lemma NextKeepsWorkerInv(c: Cluster, e: Event)
    requires WorkerInv(c)
    ensures WorkerInv(Next(c, e))
  {
    match e {
      case Offer(md) => OfferKeepsWorkerInv(c, md);
      case Deliver(ids) => DeliverKeepsWorkerInv(c, ids);
      case Release(i) => ReleaseKeepsWorkerInv(c, i);
      case _ =>
    }
  }

  /** More accepted, processed or ingested never invalidates a message. */
  lemma MessagesStay(c: Cluster, c': Cluster)
    requires forall r :: r in c.accepted ==> r in c'.accepted
    requires c.processed <= c'.processed
    ensures forall m :: MessageOk(c, m) ==> MessageOk(c', m)
  {
    forall m | MessageOk(c, m)
      ensures MessageOk(c', m)
    {
      if m.Ack? {
        forall id | id in m.ids
          ensures AckOk(c', id)
        {
          var r :| r in c.accepted && r.id == id && r in c.processed;
          assert r in c'.accepted && r in c'.processed;
        }
      }
    }
  }

  lemma ProcessKeepsMasterInv(c: Cluster, items: seq<Record>, batch: seq<Record>)
    requires MasterInv(c) && Batch(batch) in c.network && items <= batch
    ensures MasterInv(WithMaster(c, items))
    ensures items == batch ==> MessageOk(WithMaster(c, items), Ack(IdsOf(batch)))
  {
    var c' := WithMaster(c, items);
    MessagesStay(c, c');
    IngestCovers(items);
    assert MessageOk(c, Batch(batch));
    if items == batch {
      forall id | id in IdsOf(batch)
        ensures AckOk(c', id)
      {
        var i :| 0 <= i < |batch| && IdsOf(batch)[i] == id;
        assert batch[i] in batch && batch[i] in c'.processed && batch[i] in c'.accepted;
      }
    }
  }

  lemma DeliverKeepsMasterInv(c: Cluster, ids: seq<nat>)
    requires WorkerInv(c) && MasterInv(c) && Ack(ids) in c.network
    ensures MasterInv(Next(c, Deliver(ids)))
  {
    var c' := Next(c, Deliver(ids));
    MessagesStay(c, c');
    AckSplits(c.queue.items, Elements(ids));
    assert MessageOk(c, Ack(ids));
    forall r | r in Removed(c.queue.items, Elements(ids))
      ensures r in c.processed
    {
      assert AckOk(c, r.id);
      var r' :| r' in c.accepted && r'.id == r.id && r' in c.processed;
      assert multiset(c.accepted)[r] > 0;
      AscendingByID(c.accepted, r, r');
    }
  }

  lemma NextKeepsMasterInv(c: Cluster, e: Event)
    requires WorkerInv(c) && MasterInv(c)
    ensures MasterInv(Next(c, e))
  {
    match e {
      case Offer(md) => MessagesStay(c, Next(c, e));
      case SendBatch(limit) =>
        forall r | r in BatchOf(c.queue, limit)
          ensures r in c.accepted
        {
          assert r in c.queue.items;
          assert multiset(c.accepted)[r] > 0;
        }
        MessagesStay(c, Next(c, e));
      case Process(batch) =>
        if Batch(batch) in c.network {
          ProcessKeepsMasterInv(c, batch, batch);
          MessagesStay(WithMaster(c, batch), Next(c, e));
        }
      case Interrupted(batch, count) =>
        if Batch(batch) in c.network && count <= |batch| {
          ProcessKeepsMasterInv(c, batch[..count], batch);
        }
      case Deliver(ids) =>
        if Ack(ids) in c.network {
          DeliverKeepsMasterInv(c, ids);
        }
      case Release(_) => MessagesStay(c, Next(c, e));
    }
  }

  lemma {:induction false} RunKeepsInv(limit: int, file: seq<Record>, events: seq<Event>)
    requires Ascending(file)
    ensures WorkerInv(Run(limit, file, events)) && MasterInv(Run(limit, file, events))
  {
    if events != [] {
      var n := |events| - 1;
      RunKeepsInv(limit, file, events[..n]);
      NextKeepsWorkerInv(Run(limit, file, events[..n]), events[n]);
      NextKeepsMasterInv(Run(limit, file, events[..n]), events[n]);
    }
  }

  // ---------------------------------------------------------------- theorems

  /**
   * Whatever the network does, an accepted record is still queued or the master has
   * processed it, ingesting it when its infohash has 20 or 32 bytes.
   */
  lemma NoRecordIsLost(limit: int, file: seq<Record>, events: seq<Event>, r: Record)
    requires Ascending(file)
    requires r in Run(limit, file, events).accepted
    ensures var c := Run(limit, file, events);
            || r in c.queue.items
            || (r in c.processed
                && (|r.metadata.infoHash| == 20 || |r.metadata.infoHash| == 32 ==> r.metadata in c.ingested))
  {
    RunKeepsInv(limit, file, events);
    var c := Run(limit, file, events);
    assert multiset(c.accepted)[r] > 0;
  }

  /** Nothing else is ingested: only metadata of accepted records the master went through, with 20 or 32 bytes. */
  lemma OnlyRecordsAreIngested(limit: int, file: seq<Record>, events: seq<Event>, md: Metadata)
    requires Ascending(file)
    requires md in Run(limit, file, events).ingested
    ensures var c := Run(limit, file, events);
            && (|md.infoHash| == 20 || |md.infoHash| == 32)
            && exists r :: r in c.processed && r in c.accepted && r.metadata == md
  {
    RunKeepsInv(limit, file, events);
    assert ComesFrom(Run(limit, file, events), md);
  }

  /**
   * An exchange that is not disturbed takes a batch off the front of the queue: its records
   * have been processed in order, and one onAck call each is outstanding.
   */
  lemma BatchGoesThrough(c: Cluster, limit: int)
    requires Ascending(c.queue.items)
    ensures var batch := BatchOf(c.queue, limit);
            var c' := Next(Next(Next(c, SendBatch(limit)), Process(batch)), Deliver(IdsOf(batch)));
            && c'.queue.items == c.queue.items[|batch|..] && c'.queue.flushed == c.queue.flushed + |batch|
            && c'.pending == c.pending + batch && c'.removed == c.removed + batch
            && c'.ingested == c.ingested + Ingest(batch) && forall r :: r in batch ==> r in c'.processed
  {
    var batch := BatchOf(c.queue, limit);
    AckPrefix(c.queue.items, |batch|);
  }

  /** A master that stops inside a batch has processed what came before, and acks nothing. */
  lemma InterruptedIsNotAcked(c: Cluster, batch: seq<Record>, count: nat)
    requires Batch(batch) in c.network && count <= |batch|
    ensures var c' := Next(c, Interrupted(batch, count));
            && c'.ingested == c.ingested + Ingest(batch[..count])
            && (forall r :: r in batch[..count] ==> r in c'.processed)
            && c'.network == c.network && c'.queue == c.queue
  {
  }

  /** A release calls onAck for one outstanding record. */
  lemma ReleaseCallsOne(c: Cluster, i: nat)
    requires i < |c.pending|
    ensures var c' := Next(c, Release(i));
            && c'.released == c.released + [c.pending[i]] && |c'.pending| == |c.pending| - 1
            && multiset(c.pending) == multiset(c'.pending) + multiset{c.pending[i]}
            && c'.queue == c.queue
  {
    assert c.pending == c.pending[..i] + [c.pending[i]] + c.pending[i + 1..];
  }

  /** How many offers a run makes. */
  function Offers(events: seq<Event>): nat {
    if events == [] then 0 else Offers(events[..|events| - 1]) + if events[|events| - 1].Offer? then 1 else 0
  }

  /**
   * The queue never outgrows the larger of its limit and what it started with; every offer
   * is accepted or counted as dropped; accepted records are numbered on from the largest
   * restored ID.
   */
  lemma {:induction false} OffersAreCounted(limit: int, file: seq<Record>, events: seq<Event>)
    ensures var c, n := Run(limit, file, events), if limit < 1 then 256 else limit;
            && |c.queue.items| <= (if |file| > n then |file| else n)
            && c.queue.limit == n
            && |c.accepted| + c.queue.dropped == |file| + Offers(events)
            && file <= c.accepted && c.queue.nextID == MaxID(file) + |c.accepted| - |file|
            && forall i :: |file| <= i < |c.accepted| ==> c.accepted[i].id == MaxID(file) + 1 + i - |file|
  {
    if events != [] {
      var front, e := events[..|events| - 1], events[|events| - 1];
      OffersAreCounted(limit, file, front);
      if e.Deliver? {
        KeptIsNoLonger(Run(limit, file, front).queue.items, Elements(e.ids));
      }
    }
  }

  lemma {:induction false} KeptIsNoLonger(items: seq<Record>, ids: set<nat>)
    ensures |Kept(items, ids)| <= |items|
  {
    if items != [] {
      KeptIsNoLonger(items[1..], ids);
    }
  }

  /** A record leaves the queue at most once: accepted records are the queued and the removed ones, each once. */
  lemma EachRecordOnce(limit: int, file: seq<Record>, events: seq<Event>, r: Record)
    requires Ascending(file)
    ensures var c := Run(limit, file, events);
            && multiset(c.queue.items)[r] + multiset(c.removed)[r] == multiset(c.accepted)[r] <= 1
            && multiset(c.pending)[r] + multiset(c.released)[r] == multiset(c.removed)[r]
            && |c.accepted| == |c.queue.items| + c.queue.flushed
  {
    RunKeepsInv(limit, file, events);
    var c := Run(limit, file, events);
    AscendingCountsOnce(c.accepted, r);
    assert |multiset(c.accepted)| == |multiset(c.queue.items)| + |multiset(c.removed)|;
  }

  lemma {:induction false} AscendingCountsOnce(items: seq<Record>, r: Record)
    requires Ascending(items)
    ensures multiset(items)[r] <= 1
  {
    if items != [] {
      AscendingCountsOnce(items[1..], r);
      assert items == [items[0]] + items[1..];
      if items[0] == r {
        assert forall i :: 0 <= i < |items[1..]| ==> items[1..][i].id > r.id;
        assert r !in items[1..];
      }
    }
  }

  /** Removal follows processing: a record that a step takes out of the queue was processed before that step. */
  lemma ProcessedBeforeRemoved(limit: int, file: seq<Record>, events: seq<Event>, e: Event, r: Record)
    requires Ascending(file)
    requires r in Run(limit, file, events).queue.items
    requires r !in Next(Run(limit, file, events), e).queue.items
    ensures r in Run(limit, file, events).processed
  {
    var c := Run(limit, file, events);
    RunKeepsInv(limit, file, events);
    match e {
      case Deliver(ids) => DeliveredWasProcessed(c, ids, r);
      case Offer(_) =>
      case SendBatch(_) =>
      case Process(_) =>
      case Interrupted(_, _) =>
      case Release(_) =>
    }
  }

  lemma DeliveredWasProcessed(c: Cluster, ids: seq<nat>, r: Record)
    requires WorkerInv(c) && MasterInv(c)
    requires r in c.queue.items && r !in Next(c, Deliver(ids)).queue.items
    ensures r in c.processed
  {
    DeliverKeepsMasterInv(c, ids);
    AckSplits(c.queue.items, Elements(ids));
    assert r in Removed(c.queue.items, Elements(ids));
  }

  // ------------------------------------------------------------- the loops

  /**
   * How one pulled batch fares: it never arrives, it arrives and its ack is lost, the ack
   * is applied and the reply to it is lost, or all goes well.
   */
  datatype Outcome = Lost | AckLost | ReplyLost | Delivered
  {
    /** Does the worker apply the ack? */
    predicate Acks() { ReplyLost? || Delivered? }
  }

  /** A push carries its ack in the reply, so that there is none to lose after it. */
  type PushOutcome = o: Outcome | !o.ReplyLost? witness Lost

  const MAX_BATCHES_PER_PULL := 8

  function Min(a: nat, b: nat): nat { if a <= b then a else b }

  /** How many of n records go in a number of full batches. */
  function Sent(n: nat, size: nat, rounds: nat): (k: nat)
    ensures k <= n
  {
    if rounds == 0 then 0 else Min(n, Sent(n, size, rounds - 1) + size)
  }

  /** After each of these numbers of batches there was still something to send: no batch was asked for in vain. */
  ghost predicate GoesOnUntil(n: nat, size: nat, first: nat, rounds: nat) {
    forall i :: first <= i < rounds ==> Sent(n, size, i) < n
  }

  lemma {:induction false} SentIsProduct(n: nat, size: nat, rounds: nat)
    ensures Sent(n, size, rounds) == Min(n, rounds * size)
  {
    if rounds > 0 {
      SentIsProduct(n, size, rounds - 1);
      assert rounds * size == (rounds - 1) * size + size;
    }
  }

  /** A queue cut in two: what the master has acked and what is left. */
  ghost predicate Cut(items: seq<Record>, p: nat, seen: seq<Record>, rest: seq<Record>) {
    p <= |items| && seen == items[..p] && rest == items[p..]
  }

  lemma CutAscending(items: seq<Record>, p: nat, seen: seq<Record>, rest: seq<Record>)
    requires Ascending(items) && Cut(items, p, seen, rest)
    ensures Ascending(rest)
  {
  }

  /** A batch off the rest moves the cut. */
  lemma NextCut(items: seq<Record>, p: nat, seen: seq<Record>, rest: seq<Record>, n: nat)
    requires Cut(items, p, seen, rest) && n <= |rest|
    ensures Cut(items, p + n, seen + rest[..n], rest[n..])
  {
    assert items[..p + n] == items[..p] + items[p..][..n];
    assert items[p + n..] == items[p..][n..];
  }

  /** How many acks are applied: one a full round, and that of a failed one that loses only the reply. */
  function Acks(ok: bool, outcomes: seq<Outcome>, rounds: nat): nat {
    if !ok && rounds < |outcomes| && outcomes[rounds].ReplyLost? then rounds + 1 else rounds
  }

  /** The next batch off the rest: the master's view grows by it, and so does the cut if it is acked. */
  lemma OneBatchOff(items: seq<Record>, p: nat, seen: seq<Record>, rest: seq<Record>, size: nat)
    requires Cut(items, p, seen, rest)
    ensures var n := Min(|rest|, size);
            && Min(|items|, p + size) == p + n
            && Cut(items, p + n, seen + rest[..n], rest[n..])
            && seen + [] == seen == items[..p] && seen + rest[..n] == items[..p + n]
  {
    NextCut(items, p, seen, rest, Min(|rest|, size));
  }

  /** pullBatch: one batch out, one ack back. `seen` is what the master went through. */
  method PullBatch(q: WorkerQueue, maxBatch: nat, outcome: Outcome) returns (more: bool, ok: bool, seen: seq<Record>)
    requires q.Valid() && Ascending(q.View().items) && maxBatch >= 1
    modifies q`len, q`flushed, q`batches, q`dirty, q.buf
    ensures q.Valid() && q.buf == old(q.buf)
    ensures var items := old(q.View().items);
            var n := Min(|items|, maxBatch);
            && seen == (if outcome.Lost? then [] else items[..n])
            && ok == (outcome.Delivered? || (!outcome.Lost? && items == []))
            && more == (outcome.Delivered? && |items| > maxBatch)
            && q.View().items == if outcome.Acks() then items[n..] else items
  {
    ghost var items := q.View().items;
    if outcome == Lost {
      return false, false, [];
    }
    var batch, queued := q.Batch(maxBatch);
    if |batch| == 0 {
      return false, true, [];
    }
    if outcome == AckLost {
      return false, false, batch;
    }
    AckPrefix(items, |batch|);
    var _ := q.Ack(IdsOf(batch));
    if outcome == ReplyLost {
      return false, false, batch;
    }
    return queued > |batch|, true, batch;
  }

  /**
   * One batch off a queue of which p records are gone: an applied ack moves the cut, even
   * if its reply is lost; any other disturbance leaves the queue as it is, seen by the
   * master or not.
   */
  method Round(q: WorkerQueue, size: nat, outcome: Outcome, ghost items: seq<Record>, ghost p: nat, seen: seq<Record>)
    returns (more: bool, ok: bool, seen': seq<Record>, ghost p': nat)
    requires q.Valid() && Ascending(items) && size >= 1 && Cut(items, p, seen, q.View().items)
    modifies q`len, q`flushed, q`batches, q`dirty, q.buf
    ensures q.Valid() && q.buf == old(q.buf)
    ensures outcome.Acks() ==>
              && p' == Min(|items|, p + size) && Cut(items, p', seen', q.View().items)
    ensures outcome.Delivered? ==> ok && more == (p' < |items|)
    ensures !outcome.Delivered? ==> !more && (ok ==> seen' == seen && p == |items|)
    ensures !outcome.Acks() ==>
              && p' == p && q.View().items == items[p..]
              && p <= |seen'| <= |items| && seen' == items[..|seen'|]
  {
    ghost var rest := q.View().items;
    CutAscending(items, p, seen, rest);
    OneBatchOff(items, p, seen, rest, size);
    var batch;
    more, ok, batch := PullBatch(q, size, outcome);
    seen' := seen + batch;
    ghost var n := Min(|rest|, size);
    p' := if outcome.Acks() then p + n else p;
    assert batch == if outcome.Lost? then [] else rest[..n];
    assert seen' == if outcome.Lost? then items[..p] else items[..p + n];
  }

  /**
   * pullWithToken: up to eight batches, going on while the worker reported more than it
   * sent. The records acked are a prefix of the queue, seen by the master in queue order
   * and once each: as many batches as rounds, and one more when the loop ends on an ack
   * whose reply is lost. Only a disturbance or the limit of eight leaves records behind.
   */
  method PullWithToken(q: WorkerQueue, maxBatch: nat, outcomes: seq<Outcome>)
    returns (ok: bool, seen: seq<Record>, rounds: nat)
    requires q.Valid() && Ascending(q.View().items) && maxBatch >= 1
    requires |outcomes| >= MAX_BATCHES_PER_PULL
    modifies q`len, q`flushed, q`batches, q`dirty, q.buf
    ensures q.Valid() && rounds <= 8
    ensures var items := old(q.View().items);
            var pulled := Sent(|items|, maxBatch, Acks(ok, outcomes, rounds));
            && q.View().items == items[pulled..]
            && (ok ==> seen == items[..pulled] && (pulled == |items| || rounds == MAX_BATCHES_PER_PULL))
            && (!ok ==> rounds < MAX_BATCHES_PER_PULL && !outcomes[rounds].Delivered?)
            && GoesOnUntil(|items|, maxBatch, 1, rounds)
            && pulled <= |seen| <= |items| && seen == items[..|seen|]
    ensures forall i :: 0 <= i < rounds ==> outcomes[i].Delivered?
  {
    ghost var items, pulled := q.View().items, 0;
    seen, rounds, ok := [], 0, true;
    var more := true;
    while rounds < MAX_BATCHES_PER_PULL && more
      invariant q.Valid() && rounds <= MAX_BATCHES_PER_PULL && q.buf == old(q.buf)
      invariant forall i :: 0 <= i < rounds ==> outcomes[i].Delivered?
      invariant pulled == Sent(|items|, maxBatch, rounds) && Cut(items, pulled, seen, q.View().items)
      invariant ok && (!more ==> pulled == |items|)
      invariant more && rounds > 0 ==> pulled < |items|
      invariant GoesOnUntil(|items|, maxBatch, 1, rounds)
    {
      more, ok, seen, pulled := Round(q, maxBatch, outcomes[rounds], items, pulled, seen);
      if !outcomes[rounds].Delivered? {
        return;
      }
      rounds := rounds + 1;
    }
  }

  /**
   * drainFlush with a master URL and token set: flush until the queue is empty or a
   * flush fails; a push whose ack is lost is a failed flush.
   */
  method DrainFlush(q: WorkerQueue, flushBatch: int, outcomes: seq<PushOutcome>)
    returns (seen: seq<Record>, flushes: nat)
    requires q.Valid() && Ascending(q.View().items)
    modifies q`len, q`flushed, q`batches, q`dirty, q.buf
    ensures q.Valid() && flushes <= |outcomes|
    ensures var items, size := old(q.View().items), if flushBatch < 1 then 64 else flushBatch;
            var pushed := Sent(|items|, size, flushes);
            && q.View().items == items[pushed..]
            && pushed <= |seen| <= |items| && seen == items[..|seen|]
            && (pushed < |items| ==> flushes == |outcomes| || !outcomes[flushes].Delivered?)
            && GoesOnUntil(|items|, size, 0, flushes)
    ensures forall i :: 0 <= i < flushes ==> outcomes[i].Delivered?
  {
    ghost var items, pushed := q.View().items, 0;
    var size: nat := if flushBatch < 1 then 64 else flushBatch;
    seen, flushes := [], 0;
    while q.len > 0
      invariant q.Valid() && flushes <= |outcomes| && q.buf == old(q.buf)
      invariant forall i :: 0 <= i < flushes ==> outcomes[i].Delivered?
      invariant pushed == Sent(|items|, size, flushes) && Cut(items, pushed, seen, q.View().items)
      invariant GoesOnUntil(|items|, size, 0, flushes)
      decreases |items| - pushed
    {
      if flushes == |outcomes| {
        return;
      }
      var _, _, seen', p := Round(q, size, outcomes[flushes], items, pushed, seen);
      seen := seen';
      if !outcomes[flushes].Delivered? {
        return;
      }
      flushes, pushed := flushes + 1, p;
    }
  }
}
