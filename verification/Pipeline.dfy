/**
 * A worker as a whole: the infohash cache, any number of crawl runs (a paused
 * and resumed crawler starts a new one, the old may still be winding down), each with
 * its own sink and drain channel, the worker queue, and the acks on their way to onAck.
 * Every step is one critical section or one channel operation of one goroutine.
 */
module Pipeline {
  import opened Basics
  import opened NetAddr
  import opened WorkerQueues
  import Cache = HashCache
  import S = Sinks

  /** What a crawl loop is in the middle of. */
  datatype Hand =
    | Idle
    | Adding(result: S.Result)    // just added to the cache, not yet offered to the sink
    | Rejecting(h: InfoHash)      // refused by the sink, still to be removed from the cache
    | Offering(result: S.Result)  // already in the cache, its peers still to be passed on
    | Holding(md: Metadata)       // taken from the drain, still to be enqueued
    | Refusing(h: InfoHash)       // refused by the queue, still to be removed from the cache

  /**
   * One crawl run. `failing` are the attempts inside onLeechError that found the sink running,
   * `sending` is the one inside flush, `discards` are those before onDiscard.
   */
  datatype CrawlRun = CrawlRun(sink: S.SinkState, failing: multiset<InfoHash>, sending: Option<Metadata>,
                               drain: seq<Metadata>, discards: multiset<InfoHash>, hand: Hand)

  datatype Worker = Worker(cache: Cache.CacheState, runs: seq<CrawlRun>, queue: QueueState, acked: seq<Metadata>)

  const DRAIN_CAPACITY := 10
  const HOLD_TIME := 43_200_000_000_000

  /** Steps of one run that touch the run and the cache only. */
  datatype Step =
    | Found(result: S.Result, now: int)      // the crawl loop receives a DHT result
    | SinkIt | Reject | Offer | Take | Refuse | Stop
    | Succeed(md: Metadata)                  // an attempt calls flush
    | Check(h: InfoHash)                     // an attempt calls onLeechError, which looks at the termination flag
    | Fail(h: InfoHash)                      // the rest of onLeechError, under the lock
    | Learn(h: InfoHash, peers: seq<AddrPort>)
    | Abandon(h: InfoHash)                   // an attempt starts after termination
    | Send                                   // the channel takes what flush sends
    | Discard(h: InfoHash)                   // onDiscard

  datatype Event =
    | NewRun(maxLeeches: int)
    | At(i: nat, step: Step)
    | HandOver(i: nat)                               // the crawl loop enqueues
    | AckIn(ids: set<nat>)                           // an ack reaches the queue
    | OnAck(k: nat, now: int, victim: InfoHash)      // one onAck call

  /** A failure past the termination check; a download it starts in a terminated sink returns at once. */
  function Failing(r: CrawlRun, h: InfoHash): CrawlRun {
    var (s, discard) := S.Failed(r.sink, h);
    r.(sink := if discard || !s.terminated then s else S.Gone(s, h),
       failing := r.failing - multiset{h},
       discards := r.discards + if discard then multiset{h} else multiset{})
  }

  /** Steps that are not possible change nothing. */
  function RunStep(r: CrawlRun, c: Cache.CacheState, step: Step): (CrawlRun, Cache.CacheState) {
    match step
    case Found(result, now) =>
      if !r.hand.Idle? || r.sink.terminated then (r, c) else
      var (c', added) := Cache.Added(c, result.infoHash, now);
      (r.(hand := if added then Adding(result) else Offering(result)), c')
    case SinkIt =>
      if !r.hand.Adding? then (r, c) else
      var (s, ok) := S.Sunk(r.sink, r.hand.result);
      (r.(sink := s, hand := if ok then Idle else Rejecting(r.hand.result.infoHash)), c)
    case Reject =>
      if !r.hand.Rejecting? then (r, c) else (r.(hand := Idle), Cache.Forgotten(c, r.hand.h))
    case Offer =>
      if !r.hand.Offering? then (r, c) else (r.(sink := S.PeersAdded(r.sink, r.hand.result).0, hand := Idle), c)
    case Take =>
      if !r.hand.Idle? || r.sink.terminated || r.drain == [] then (r, c) else
      (r.(drain := r.drain[1..], hand := Holding(r.drain[0])), c)
    case Refuse =>
      if !r.hand.Refusing? then (r, c) else (r.(hand := Idle), Cache.Forgotten(c, r.hand.h))
    case Stop =>
      if !r.hand.Idle? || r.sending.Some? then (r, c) else (r.(sink := r.sink.(terminated := true)), c)
    case Succeed(md) =>
      if md.infoHash !in r.sink.attempts || md.infoHash in r.failing || r.sending.Some? then (r, c) else
      var (s, send) := S.Flushed(r.sink, md);
      (r.(sink := s, sending := send), c)
    case Check(h) =>
      if h !in r.sink.attempts || h in r.failing then (r, c)
      else if r.sink.terminated then (r.(sink := S.Gone(r.sink, h)), c)
      else (r.(failing := r.failing + multiset{h}), c)
    case Fail(h) => if h !in r.failing then (r, c) else (Failing(r, h), c)
    case Learn(h, peers) => (r.(sink := S.PeersLearned(r.sink, h, peers)), c)
    case Abandon(h) =>
      if r.sink.terminated && h !in r.failing then (r.(sink := S.Gone(r.sink, h)), c) else (r, c)
    case Send =>
      if r.sending.None? || |r.drain| >= DRAIN_CAPACITY then (r, c) else
      (r.(sending := None, drain := r.drain + [r.sending.value]), c)
    case Discard(h) =>
      if h !in r.discards then (r, c) else (r.(discards := r.discards - multiset{h}), Cache.Forgotten(c, h))
  }

  function Fresh(maxLeeches: int): CrawlRun {
    CrawlRun(S.New(maxLeeches), multiset{}, None, [], multiset{}, Idle)
  }

  function Next(w: Worker, e: Event): Worker {
    match e
    case NewRun(m) => w.(runs := w.runs + [Fresh(m)])
    case At(i, step) =>
      if i >= |w.runs| then w else
      var (r, c) := RunStep(w.runs[i], w.cache, step);
      w.(runs := w.runs[i := r], cache := c)
    case HandOver(i) =>
      if i >= |w.runs| || !w.runs[i].hand.Holding? then w else
      var md := w.runs[i].hand.md;
      var (q, ok) := Enqueued(w.queue, md);
      w.(queue := q, runs := w.runs[i := w.runs[i].(hand := if ok then Idle else Refusing(md.infoHash))])
    case AckIn(ids) =>
      w.(queue := Acked(w.queue, ids), acked := w.acked + MetadataOf(Removed(w.queue.items, ids)))
    case OnAck(k, now, victim) =>
      if k >= |w.acked| || !Cache.Meets(w.cache, w.acked[k].infoHash, now, victim) then w else
      w.(cache := Cache.ExpiringAfter(w.cache, w.acked[k].infoHash, now, HOLD_TIME, victim),
         acked := w.acked[..k] + w.acked[k + 1..])
  }

  /** A worker as it starts: the cache is empty, the queue may hold the records of a snapshot. */
  function Init(limit: int, file: seq<Record>): Worker {
    Worker(Cache.CacheState({}, map[]), [], Restored(limit, file), [])
  }

  function After(w: Worker, events: seq<Event>): Worker {
    if events == [] then w else Next(After(w, events[..|events| - 1]), events[|events| - 1])
  }

  function Run(limit: int, file: seq<Record>, events: seq<Event>): Worker {
    After(Init(limit, file), events)
  }

  /** Is an infohash none of those restored from the snapshot? A pull-mode worker restores none. */
  ghost predicate NotRestored(file: seq<Record>, h: InfoHash) {
    forall r :: r in file ==> r.metadata.infoHash != h
  }

  // ------------------------------------------------------------------ places

  function In(b: bool): nat { if b then 1 else 0 }

  /** How often an infohash occurs in a list of metadata. */
  function Count(mds: seq<Metadata>, h: InfoHash): nat {
    if mds == [] then 0 else In(mds[0].infoHash == h) + Count(mds[1..], h)
  }

  function HandCount(hand: Hand, h: InfoHash): nat {
    match hand
    case Idle => 0
    case Adding(r) => In(r.infoHash == h)
    case Rejecting(g) => In(g == h)
    case Offering(_) => 0
    case Holding(md) => In(md.infoHash == h)
    case Refusing(g) => In(g == h)
  }

  /** Everything one run holds: tracked, being sent, drained, being discarded, in hand. */
  function RunCount(r: CrawlRun, h: InfoHash): nat {
    In(h in r.sink.waiting) + In(r.sending.Some? && r.sending.value.infoHash == h)
    + Count(r.drain, h) + r.discards[h] + HandCount(r.hand, h)
  }

  function Total(runs: seq<CrawlRun>, h: InfoHash): nat {
    if runs == [] then 0 else RunCount(runs[0], h) + Total(runs[1..], h)
  }

  /** In how many places of the worker an infohash is, counting repeats. */
  function Places(w: Worker, h: InfoHash): nat {
    Total(w.runs, h) + Count(MetadataOf(w.queue.items), h) + Count(w.acked, h)
  }

  ghost predicate RunOk(r: CrawlRun) {
    && S.Inv(r.sink)
    && (forall h :: r.failing[h] <= r.sink.attempts[h])
    && |r.drain| <= DRAIN_CAPACITY
    && (r.sink.terminated ==> r.sending.None? && r.hand.Idle?)
  }

  ghost predicate Sound(w: Worker) {
    forall i :: 0 <= i < |w.runs| ==> RunOk(w.runs[i])
  }

  /** The law of the pipeline for one infohash: in one place while in flight, in none otherwise. */
  ghost predicate Law(w: Worker, h: InfoHash) {
    && Cache.Ok(w.cache, h)
    && Places(w, h) == In(h in w.cache.Pinned())
  }

  lemma {:induction false} CountConcat(a: seq<Metadata>, b: seq<Metadata>, h: InfoHash)
    ensures Count(a + b, h) == Count(a, h) + Count(b, h)
  {
    if a == [] {
      assert [] + b == b;
    } else {
      assert (a + b)[1..] == a[1..] + b;
      CountConcat(a[1..], b, h);
    }
  }

  lemma CountSnoc(a: seq<Metadata>, md: Metadata, h: InfoHash)
    ensures Count(a + [md], h) == Count(a, h) + In(md.infoHash == h)
  {
    CountConcat(a, [md], h);
    assert [md][1..] == [];
  }

  lemma CountTakenOut(mds: seq<Metadata>, k: nat, h: InfoHash)
    requires k < |mds|
    ensures Count(mds, h) == Count(mds[..k] + mds[k + 1..], h) + In(mds[k].infoHash == h)
  {
    assert mds == mds[..k] + [mds[k]] + mds[k + 1..];
    CountConcat(mds[..k] + [mds[k]], mds[k + 1..], h);
    CountSnoc(mds[..k], mds[k], h);
    CountConcat(mds[..k], mds[k + 1..], h);
  }

  lemma MetadataOfCons(r: Record, items: seq<Record>, h: InfoHash)
    ensures Count(MetadataOf([r] + items), h) == In(r.metadata.infoHash == h) + Count(MetadataOf(items), h)
  {
    assert MetadataOf([r] + items)[1..] == MetadataOf(items);
  }

  lemma {:induction false} AckCount(items: seq<Record>, ids: set<nat>, h: InfoHash)
    ensures Count(MetadataOf(items), h) ==
            Count(MetadataOf(Kept(items, ids)), h) + Count(MetadataOf(Removed(items, ids)), h)
  {
    if items != [] {
      AckCount(items[1..], ids, h);
      assert items == [items[0]] + items[1..];
      MetadataOfCons(items[0], items[1..], h);
      MetadataOfCons(items[0], Kept(items[1..], ids), h);
      MetadataOfCons(items[0], Removed(items[1..], ids), h);
      assert [] + Kept(items[1..], ids) == Kept(items[1..], ids);
      assert [] + Removed(items[1..], ids) == Removed(items[1..], ids);
    }
  }

  lemma {:induction false} TotalUpdate(runs: seq<CrawlRun>, i: nat, r: CrawlRun, h: InfoHash)
    requires i < |runs|
    ensures Total(runs[i := r], h) == Total(runs, h) - RunCount(runs[i], h) + RunCount(r, h)
    ensures RunCount(runs[i], h) <= Total(runs, h)
  {
    if i > 0 {
      TotalUpdate(runs[1..], i - 1, r, h);
      assert runs[i := r][1..] == runs[1..][i - 1 := r];
    } else {
      assert runs[i := r][1..] == runs[1..];
    }
  }

  lemma {:induction false} TotalSnoc(runs: seq<CrawlRun>, r: CrawlRun, h: InfoHash)
    ensures Total(runs + [r], h) == Total(runs, h) + RunCount(r, h)
  {
    if runs == [] {
      assert [] + [r] == [r] && [r][1..] == [];
    } else {
      assert (runs + [r])[1..] == runs[1..] + [r];
      TotalSnoc(runs[1..], r, h);
    }
  }

  // ------------------------------------------------------- steps of one run

  /** No more in the run than the cache has pinned. */
  ghost predicate Covered(r: CrawlRun, c: Cache.CacheState, h: InfoHash) {
    RunCount(r, h) <= In(h in c.Pinned())
  }

  /** A step changes the run's places and the pinned infohashes alike. */
  ghost predicate Balanced(r: CrawlRun, c: Cache.CacheState, r': CrawlRun, c': Cache.CacheState, h: InfoHash) {
    && Cache.Ok(c', h)
    && RunCount(r', h) + In(h in c.Pinned()) == RunCount(r, h) + In(h in c'.Pinned())
  }

  lemma FoundBalances(r: CrawlRun, c: Cache.CacheState, result: S.Result, now: int, g: InfoHash)
    requires Cache.Ok(c, g)
    ensures var (r', c') := RunStep(r, c, Found(result, now)); Balanced(r, c, r', c', g)
  {
    Cache.AddPins(c, result.infoHash, now, g);
  }

  lemma SinkItBalances(r: CrawlRun, c: Cache.CacheState, g: InfoHash)
    requires Cache.Ok(c, g)
    ensures var (r', c') := RunStep(r, c, SinkIt); Balanced(r, c, r', c', g)
  {
  }

  /** Removing from the cache: what the run lets go of was pinned. */
  lemma ForgetBalances(r: CrawlRun, c: Cache.CacheState, step: Step, g: InfoHash)
    requires Cache.Ok(c, g) && Covered(r, c, g) && (step.Reject? || step.Refuse? || step.Discard?)
    ensures var (r', c') := RunStep(r, c, step); Balanced(r, c, r', c', g)
  {
    if step.Discard? {
      Cache.RemoveUnpins(c, step.h, g);
    } else if r.hand.Rejecting? || r.hand.Refusing? {
      Cache.RemoveUnpins(c, r.hand.h, g);
    }
  }

  lemma OfferBalances(r: CrawlRun, c: Cache.CacheState, g: InfoHash)
    requires S.Inv(r.sink) && Cache.Ok(c, g)
    ensures var (r', c') := RunStep(r, c, Offer); Balanced(r, c, r', c', g)
  {
    if r.hand.Offering? {
      S.PeersAddedKeepsInv(r.sink, r.hand.result);
      assert g in r.sink.waiting <==> g in r.sink.waiting.Keys;
    }
  }

  lemma SucceedBalances(r: CrawlRun, c: Cache.CacheState, md: Metadata, g: InfoHash)
    requires RunOk(r) && Cache.Ok(c, g)
    ensures var (r', c') := RunStep(r, c, Succeed(md)); Balanced(r, c, r', c', g)
  {
    assert S.HashOk(r.sink, md.infoHash);
  }

  lemma FailBalances(r: CrawlRun, c: Cache.CacheState, h: InfoHash, g: InfoHash)
    requires RunOk(r) && Cache.Ok(c, g)
    ensures var (r', c') := RunStep(r, c, Fail(h)); Balanced(r, c, r', c', g)
  {
    assert S.HashOk(r.sink, h);
    assert r.failing[h] <= r.sink.attempts[h];
  }

  lemma ChannelBalances(r: CrawlRun, c: Cache.CacheState, step: Step, g: InfoHash)
    requires Cache.Ok(c, g) && (step.Take? || step.Send?)
    ensures var (r', c') := RunStep(r, c, step); Balanced(r, c, r', c', g)
  {
    if step.Send? && r.sending.Some? {
      CountSnoc(r.drain, r.sending.value, g);
    }
  }

  /** Steps that touch attempts, peers or the termination flag only. */
  lemma QuietBalances(r: CrawlRun, c: Cache.CacheState, step: Step, g: InfoHash)
    requires Cache.Ok(c, g) && (step.Check? || step.Learn? || step.Abandon? || step.Stop?)
    ensures var (r', c') := RunStep(r, c, step); Balanced(r, c, r', c', g)
  {
  }

  lemma StepBalances(r: CrawlRun, c: Cache.CacheState, step: Step, g: InfoHash)
    requires RunOk(r) && Cache.Ok(c, g) && Covered(r, c, g)
    ensures var (r', c') := RunStep(r, c, step); Balanced(r, c, r', c', g)
  {
    match step {
      case Found(result, now) => FoundBalances(r, c, result, now, g);
      case SinkIt => SinkItBalances(r, c, g);
      case Reject => ForgetBalances(r, c, step, g);
      case Offer => OfferBalances(r, c, g);
      case Take => ChannelBalances(r, c, step, g);
      case Refuse => ForgetBalances(r, c, step, g);
      case Succeed(md) => SucceedBalances(r, c, md, g);
      case Fail(h) => FailBalances(r, c, h, g);
      case Send => ChannelBalances(r, c, step, g);
      case Discard(_) => ForgetBalances(r, c, step, g);
      case _ => QuietBalances(r, c, step, g);
    }
  }

  // ---------------------------------------------------------- runs stay sound

  lemma HandKeepsRun(r: CrawlRun, c: Cache.CacheState, step: Step)
    requires RunOk(r) && (step.SinkIt? || step.Offer?)
    ensures RunOk(RunStep(r, c, step).0)
  {
    if step.SinkIt? && r.hand.Adding? {
      S.SunkKeepsInv(r.sink, r.hand.result);
    } else if step.Offer? && r.hand.Offering? {
      S.PeersAddedKeepsInv(r.sink, r.hand.result);
    }
  }

  lemma SucceedKeepsRun(r: CrawlRun, c: Cache.CacheState, md: Metadata)
    requires RunOk(r)
    ensures RunOk(RunStep(r, c, Succeed(md)).0)
  {
    if md.infoHash in r.sink.attempts {
      S.FlushedKeepsInv(r.sink, md);
    }
  }

  lemma FailKeepsRun(r: CrawlRun, c: Cache.CacheState, h: InfoHash)
    requires RunOk(r)
    ensures RunOk(RunStep(r, c, Fail(h)).0)
  {
    if h in r.failing {
      assert 0 < r.failing[h] <= r.sink.attempts[h];
      S.FailedKeepsInv(r.sink, h);
      var s := S.Failed(r.sink, h).0;
      if s.terminated {
        S.GoneKeepsInv(s, h);
      }
      forall g
        ensures Failing(r, h).failing[g] <= Failing(r, h).sink.attempts[g]
      {
        assert r.failing[g] <= r.sink.attempts[g] <= 1 by {
          assert S.HashOk(r.sink, g);
        }
      }
    }
  }

  lemma GoneKeepsRun(r: CrawlRun, h: InfoHash)
    requires RunOk(r) && r.sink.terminated && h !in r.failing
    ensures RunOk(r.(sink := S.Gone(r.sink, h)))
  {
    S.GoneKeepsInv(r.sink, h);
  }

  lemma CheckKeepsRun(r: CrawlRun, c: Cache.CacheState, h: InfoHash)
    requires RunOk(r)
    ensures RunOk(RunStep(r, c, Check(h)).0)
  {
    if r.sink.terminated && h !in r.failing {
      GoneKeepsRun(r, h);
    }
  }

  lemma StepKeepsRun(r: CrawlRun, c: Cache.CacheState, step: Step)
    requires RunOk(r)
    ensures RunOk(RunStep(r, c, step).0)
  {
    match step {
      case SinkIt => HandKeepsRun(r, c, step);
      case Offer => HandKeepsRun(r, c, step);
      case Succeed(md) => SucceedKeepsRun(r, c, md);
      case Check(h) => CheckKeepsRun(r, c, h);
      case Fail(h) => FailKeepsRun(r, c, h);
      case Learn(h, peers) => S.PeersLearnedKeepsInv(r.sink, h, peers);
      case Abandon(h) =>
        if r.sink.terminated && h !in r.failing {
          GoneKeepsRun(r, h);
        }
      case Stop => S.TerminateKeepsInv(r.sink);
      case Found(_, _) =>
      case Reject =>
      case Take =>
      case Refuse =>
      case Send =>
      case Discard(_) =>
    }
  }

  lemma NextKeepsSound(w: Worker, e: Event)
    requires Sound(w)
    ensures Sound(Next(w, e))
  {
    match e {
      case At(i, step) =>
        if i < |w.runs| {
          StepKeepsRun(w.runs[i], w.cache, step);
        }
      case NewRun(m) => FreshIsOk(m);
      case HandOver(i) => HandOverKeepsSound(w, i);
      case AckIn(_) =>
      case OnAck(_, _, _) =>
    }
  }

  lemma FreshIsOk(m: int)
    ensures RunOk(Fresh(m))
  {
    assert forall h :: S.HashOk(S.New(m), h);
  }

  lemma HandOverKeepsSound(w: Worker, i: nat)
    requires Sound(w)
    ensures Sound(Next(w, HandOver(i)))
  {
    if i < |w.runs| && w.runs[i].hand.Holding? {
      assert RunOk(w.runs[i]) && !w.runs[i].sink.terminated;
      var r := Next(w, HandOver(i)).runs[i];
      assert r.sink == w.runs[i].sink && RunOk(r);
    }
  }

  // ----------------------------------------------------- steps of the worker

  lemma AtKeepsLaw(w: Worker, i: nat, step: Step, h: InfoHash)
    requires Sound(w) && Law(w, h)
    ensures Law(Next(w, At(i, step)), h)
  {
    if i < |w.runs| {
      var (r, c) := RunStep(w.runs[i], w.cache, step);
      TotalUpdate(w.runs, i, r, h);
      assert Covered(w.runs[i], w.cache, h);
      StepBalances(w.runs[i], w.cache, step, h);
    }
  }

  /** What the crawl loop lets go of goes into the queue or into its hand. */
  lemma HandOverCounts(r: CrawlRun, q: QueueState, h: InfoHash)
    requires r.hand.Holding?
    ensures var md := r.hand.md;
            var (q', ok) := Enqueued(q, md);
            RunCount(r.(hand := if ok then Idle else Refusing(md.infoHash)), h) + Count(MetadataOf(q'.items), h)
            == RunCount(r, h) + Count(MetadataOf(q.items), h)
  {
    if Enqueued(q, r.hand.md).1 {
      EnqueuedCount(q, r.hand.md, h);
    }
  }

  lemma EnqueuedCount(q: QueueState, md: Metadata, h: InfoHash)
    requires Enqueued(q, md).1
    ensures Count(MetadataOf(Enqueued(q, md).0.items), h) == Count(MetadataOf(q.items), h) + In(md.infoHash == h)
  {
    assert MetadataOf(Enqueued(q, md).0.items) == MetadataOf(q.items) + [md];
    CountSnoc(MetadataOf(q.items), md, h);
  }

  lemma HandOverKeepsLaw(w: Worker, i: nat, h: InfoHash)
    requires Law(w, h)
    ensures Law(Next(w, HandOver(i)), h)
  {
    if i < |w.runs| && w.runs[i].hand.Holding? {
      HandOverCounts(w.runs[i], w.queue, h);
      TotalUpdate(w.runs, i, Next(w, HandOver(i)).runs[i], h);
    }
  }

  lemma AckInKeepsLaw(w: Worker, ids: set<nat>, h: InfoHash)
    requires Law(w, h)
    ensures Law(Next(w, AckIn(ids)), h)
  {
    AckCount(w.queue.items, ids, h);
    CountConcat(w.acked, MetadataOf(Removed(w.queue.items, ids)), h);
  }

  /** The infohash an onAck call is about is pinned until that call. */
  lemma AckedIsPinned(w: Worker, k: nat)
    requires k < |w.acked| && Law(w, w.acked[k].infoHash)
    ensures w.acked[k].infoHash in w.cache.Pinned()
  {
    CountTakenOut(w.acked, k, w.acked[k].infoHash);
  }

  lemma OnAckKeepsLaw(w: Worker, k: nat, now: int, victim: InfoHash, h: InfoHash)
    requires Law(w, h)
    ensures Law(Next(w, OnAck(k, now, victim)), h)
  {
    if k < |w.acked| && Cache.Meets(w.cache, w.acked[k].infoHash, now, victim) {
      if w.acked[k].infoHash == h {
        AckedIsPinned(w, k);
      }
      CountTakenOut(w.acked, k, h);
      Cache.ExpireUnpins(w.cache, w.acked[k].infoHash, now, HOLD_TIME, victim, h);
    }
  }

  lemma NewRunKeepsLaw(w: Worker, m: int, h: InfoHash)
    requires Law(w, h)
    ensures Law(Next(w, NewRun(m)), h)
  {
    TotalSnoc(w.runs, Fresh(m), h);
  }

  /** Every step keeps the law of every infohash that has it, whatever the others do. */
  lemma NextKeepsLaw(w: Worker, e: Event, h: InfoHash)
    requires Sound(w) && Law(w, h)
    ensures Law(Next(w, e), h)
  {
    match e {
      case NewRun(m) => NewRunKeepsLaw(w, m, h);
      case At(i, step) => AtKeepsLaw(w, i, step, h);
      case HandOver(i) => HandOverKeepsLaw(w, i, h);
      case AckIn(ids) => AckInKeepsLaw(w, ids, h);
      case OnAck(k, now, victim) => OnAckKeepsLaw(w, k, now, victim, h);
    }
  }

  lemma {:induction false} AfterKeepsLaw(w: Worker, events: seq<Event>, h: InfoHash)
    requires Sound(w) && Law(w, h)
    ensures Sound(After(w, events)) && Law(After(w, events), h)
  {
    if events != [] {
      var front, e := events[..|events| - 1], events[|events| - 1];
      AfterKeepsLaw(w, front, h);
      NextKeepsSound(After(w, front), e);
      NextKeepsLaw(After(w, front), e, h);
    }
  }

  lemma {:induction false} AfterKeepsSound(w: Worker, events: seq<Event>)
    requires Sound(w)
    ensures Sound(After(w, events))
  {
    if events != [] {
      AfterKeepsSound(w, events[..|events| - 1]);
      NextKeepsSound(After(w, events[..|events| - 1]), events[|events| - 1]);
    }
  }

  lemma {:induction false} CountNone(mds: seq<Metadata>, h: InfoHash)
    requires forall md :: md in mds ==> md.infoHash != h
    ensures Count(mds, h) == 0
  {
    if mds != [] {
      CountNone(mds[1..], h);
    }
  }

  lemma RunKeepsLaw(limit: int, file: seq<Record>, events: seq<Event>, h: InfoHash)
    requires NotRestored(file, h)
    ensures Sound(Run(limit, file, events)) && Law(Run(limit, file, events), h)
  {
    CountNone(MetadataOf(file), h);
    AfterKeepsLaw(Init(limit, file), events, h);
  }

  // ---------------------------------------------------------------- theorems

  /**
   * In every reachable state an infohash that was not restored is in exactly one place when
   * the cache knows it without an end date, and in none otherwise; an end date is only for
   * a known one.
   */
  lemma OnePlace(limit: int, file: seq<Record>, events: seq<Event>, h: InfoHash)
    requires NotRestored(file, h)
    ensures var w := Run(limit, file, events);
            && Places(w, h) == (if h in w.cache.known && h !in w.cache.expiry then 1 else 0)
            && (h in w.cache.expiry ==> h in w.cache.known)
  {
    RunKeepsLaw(limit, file, events, h);
  }

  /** The worker queue never holds two records for one infohash, restored ones apart. */
  lemma QueueHasNoRepeats(limit: int, file: seq<Record>, events: seq<Event>, i: nat, j: nat)
    requires i < j < |Run(limit, file, events).queue.items|
    requires NotRestored(file, Run(limit, file, events).queue.items[i].metadata.infoHash)
    ensures var items := Run(limit, file, events).queue.items;
            items[i].metadata.infoHash != items[j].metadata.infoHash
  {
    var mds := MetadataOf(Run(limit, file, events).queue.items);
    var h := mds[i].infoHash;
    OnePlace(limit, file, events, h);
    if mds[j].infoHash == h {
      CountTwice(mds, i, j, h);
    }
  }

  lemma CountTwice(mds: seq<Metadata>, i: nat, j: nat, h: InfoHash)
    requires i < j < |mds| && mds[i].infoHash == mds[j].infoHash == h
    ensures Count(mds, h) >= 2
  {
    CountTakenOut(mds, j, h);
    CountTakenOut(mds[..j] + mds[j + 1..], i, h);
  }

  /** A download starts only for an infohash that is nowhere in the worker. */
  lemma OnlyFreshAreSunk(limit: int, file: seq<Record>, events: seq<Event>, h: InfoHash, now: int)
    requires NotRestored(file, h)
    ensures var w := Run(limit, file, events);
            Cache.Added(w.cache, h, now).1 ==> Places(w, h) == 0
  {
    RunKeepsLaw(limit, file, events, h);
    Cache.AddPins(Run(limit, file, events).cache, h, now, h);
  }

  /** An onAck call never evicts its own infohash, unless that was restored. */
  lemma OnAckNeverEvictsItself(limit: int, file: seq<Record>, events: seq<Event>, k: nat, now: int, victim: InfoHash)
    requires k < |Run(limit, file, events).acked|
    requires NotRestored(file, Run(limit, file, events).acked[k].infoHash)
    ensures var w := Run(limit, file, events);
            !Cache.EvictsItself(w.cache, w.acked[k].infoHash, now, victim)
  {
    var w := Run(limit, file, events);
    RunKeepsLaw(limit, file, events, w.acked[k].infoHash);
    AckedIsPinned(w, k);
  }

  /** Nothing is sent on a closed drain, and every running sink has one attempt per tracked infohash. */
  lemma SinksStaySound(limit: int, file: seq<Record>, events: seq<Event>, i: nat, h: InfoHash)
    requires i < |Run(limit, file, events).runs|
    ensures var r := Run(limit, file, events).runs[i];
            && (r.sink.terminated ==> r.sending.None?)
            && |r.drain| <= 10
            && r.sink.waiting.Keys == r.sink.families.Keys == r.sink.peers.Keys
            && (r.sink.waiting == map[] || |r.sink.waiting| <= r.sink.maxLeeches)
            && r.failing[h] <= r.sink.attempts[h] <= (if h in r.sink.waiting then 1 else 0)
            && (!r.sink.terminated && h in r.sink.waiting ==> r.sink.attempts[h] == 1)
            && r.sink.accepted[h] == r.sink.drained[h] + r.sink.discarded[h] + if h in r.sink.waiting then 1 else 0
  {
    AfterKeepsSound(Init(limit, file), events);
    assert RunOk(Run(limit, file, events).runs[i]);
    assert S.HashOk(Run(limit, file, events).runs[i].sink, h);
  }

  // ------------------------------------------------------------ a way through

  /** What the loop refuses or discards is forgotten, and its hand is free again. */
  lemma RefusedIsForgotten(r: CrawlRun, c: Cache.CacheState, h: InfoHash, now: int)
    requires r.hand == Rejecting(h) || r.hand == Refusing(h)
    ensures var (r', c') := RunStep(r, c, if r.hand.Rejecting? then Reject else Refuse);
            r' == r.(hand := Idle) && Cache.Added(c', h, now).1
  {
  }

  /** A result for a known infohash brings its peers to the sink. */
  lemma OfferedIsPassedOn(r: CrawlRun, c: Cache.CacheState, result: S.Result, now: int)
    requires r.hand.Idle? && !r.sink.terminated && !Cache.Added(c, result.infoHash, now).1
    ensures var (r1, c1) := RunStep(r, c, Found(result, now));
            var (r2, c2) := RunStep(r1, c1, Offer);
            r2 == r.(sink := S.PeersAdded(r.sink, result).0) && c2 == c1
  {
  }

  /** The drain is first in, first out, and holds ten; a new run has nothing in it. */
  lemma DrainIsFifo(r: CrawlRun, c: Cache.CacheState, maxLeeches: int)
    ensures r.sending.Some? && |r.drain| < 10 ==>
              var r' := RunStep(r, c, Send).0;
              r'.drain == r.drain + [r.sending.value] && r'.sending.None?
    ensures r.hand.Idle? && !r.sink.terminated && r.drain != [] ==>
              var r' := RunStep(r, c, Take).0;
              r'.hand == Holding(r.drain[0]) && [r.drain[0]] + r'.drain == r.drain
    ensures var new_ := Fresh(maxLeeches);
            new_.sink == S.New(maxLeeches) && new_.drain == [] && new_.sending.None? && new_.hand.Idle?
  {
  }

  /** An attempt's own steps: peers it learns wait in the sink, and it goes past its check, or ends, by the flag. */
  lemma AttemptDecides(r: CrawlRun, c: Cache.CacheState, h: InfoHash, peers: seq<AddrPort>)
    requires h in r.sink.attempts && h !in r.failing
    ensures RunStep(r, c, Learn(h, peers)) == (r.(sink := S.PeersLearned(r.sink, h, peers)), c)
    ensures var r' := RunStep(r, c, Check(h)).0;
            if r.sink.terminated then r'.sink.attempts[h] == r.sink.attempts[h] - 1 && r'.failing == r.failing
            else h in r'.failing && r'.sink == r.sink
    ensures var r' := RunStep(r, c, Abandon(h)).0;
            if r.sink.terminated then r'.sink.attempts[h] == r.sink.attempts[h] - 1 && r'.failing == r.failing
            else r' == r
  {
  }

  /** A stop ends the run as soon as its loop is idle and nothing is being sent. */
  lemma StopTerminates(r: CrawlRun, c: Cache.CacheState)
    requires r.hand.Idle? && r.sending.None?
    ensures RunStep(r, c, Stop) == (r.(sink := r.sink.(terminated := true)), c)
  {
  }

  /** A queue that is full makes the loop refuse what it holds, one that is not takes it. */
  lemma HandOverTakes(w: Worker, i: nat)
    requires i < |w.runs| && w.runs[i].hand.Holding?
    ensures var w', md := Next(w, HandOver(i)), w.runs[i].hand.md;
            && |w'.runs| == |w.runs| && w'.cache == w.cache && w'.acked == w.acked
            && (|w.queue.items| >= w.queue.limit ==>
                  w'.runs[i].hand == Refusing(md.infoHash) && w'.queue.items == w.queue.items)
            && (|w.queue.items| < w.queue.limit ==>
                  && w'.runs[i].hand == Idle
                  && w'.queue.items == w.queue.items + [Record(w.queue.nextID + 1, md)])
  {
  }

  /** An acknowledged infohash is refused for twelve hours from its onAck call on, and then taken again. */
  lemma HeldForTwelveHours(w: Worker, k: nat, now: int, victim: InfoHash, later: int)
    requires k < |w.acked| && Law(w, w.acked[k].infoHash)
    requires Cache.Meets(w.cache, w.acked[k].infoHash, now, victim)
    ensures var w' := Next(w, OnAck(k, now, victim));
            Cache.Added(w'.cache, w.acked[k].infoHash, later).1 <==> later - now >= 12 * 3600 * 1_000_000_000
  {
    var h, w' := w.acked[k].infoHash, Next(w, OnAck(k, now, victim));
    AckedIsPinned(w, k);
    Cache.ExpireDecides(w.cache, h, now, HOLD_TIME, victim, h);
    Cache.ExpireUnpins(w.cache, h, now, HOLD_TIME, victim, h);
  }

  // ------------------------------------------------- what a stopped run holds

  /** Is the infohash on its way out: being discarded, or failing with no peer left to try? */
  predicate OnItsWayOut(r: CrawlRun, h: InfoHash) {
    || h in r.discards
    || (h in r.failing && h in r.sink.waiting && r.sink.waiting[h] == [])
  }

  /** A terminated run tracks the infohash or has its metadata in the drain, and does not let go of it. */
  ghost predicate Stranded(r: CrawlRun, h: InfoHash) {
    && r.sink.terminated && !OnItsWayOut(r, h)
    && (h in r.sink.waiting || Count(r.drain, h) > 0)
  }

  lemma FailKeepsStranded(r: CrawlRun, c: Cache.CacheState, g: InfoHash, h: InfoHash)
    requires RunOk(r) && Stranded(r, h)
    ensures Stranded(RunStep(r, c, Fail(g)).0, h)
  {
    if g in r.failing {
      assert r.failing[g] <= r.sink.attempts[g] <= 1 by { assert S.HashOk(r.sink, g); }
      assert g in r.sink.waiting by { assert S.HashOk(r.sink, g); }
    }
  }

  lemma SucceedKeepsStranded(r: CrawlRun, c: Cache.CacheState, md: Metadata, h: InfoHash)
    requires Stranded(r, h)
    ensures Stranded(RunStep(r, c, Succeed(md)).0, h)
  {
  }

  lemma LearnKeepsStranded(r: CrawlRun, c: Cache.CacheState, g: InfoHash, peers: seq<AddrPort>, h: InfoHash)
    requires Stranded(r, h)
    ensures Stranded(RunStep(r, c, Learn(g, peers)).0, h)
  {
  }

  /** Attempts that end because the sink is terminated leave its maps alone. */
  lemma GoneKeepsStranded(r: CrawlRun, c: Cache.CacheState, step: Step, h: InfoHash)
    requires Stranded(r, h) && (step.Check? || step.Abandon?)
    ensures Stranded(RunStep(r, c, step).0, h)
  {
  }

  lemma DiscardKeepsStranded(r: CrawlRun, c: Cache.CacheState, g: InfoHash, h: InfoHash)
    requires Stranded(r, h)
    ensures Stranded(RunStep(r, c, Discard(g)).0, h)
  {
  }

  /** The crawl loop has ended and nothing is being sent: these steps are not possible any more. */
  lemma EndedLoopStaysEnded(r: CrawlRun, c: Cache.CacheState, step: Step)
    requires r.sink.terminated && r.hand.Idle? && r.sending.None?
    requires step.Found? || step.SinkIt? || step.Reject? || step.Offer? || step.Take? || step.Refuse? || step.Send?
    ensures RunStep(r, c, step).0 == r
  {
  }

  lemma StepKeepsStranded(r: CrawlRun, c: Cache.CacheState, step: Step, h: InfoHash)
    requires RunOk(r) && Stranded(r, h)
    ensures Stranded(RunStep(r, c, step).0, h)
  {
    match step {
      case Fail(g) => FailKeepsStranded(r, c, g, h);
      case Succeed(md) => SucceedKeepsStranded(r, c, md, h);
      case Learn(g, peers) => LearnKeepsStranded(r, c, g, peers, h);
      case Discard(g) => DiscardKeepsStranded(r, c, g, h);
      case Check(_) => GoneKeepsStranded(r, c, step, h);
      case Abandon(_) => GoneKeepsStranded(r, c, step, h);
      case Stop =>
      case _ => EndedLoopStaysEnded(r, c, step);
    }
  }

  lemma NextKeepsStranded(w: Worker, e: Event, i: nat, h: InfoHash)
    requires Sound(w) && i < |w.runs| && Stranded(w.runs[i], h)
    ensures i < |Next(w, e).runs| && Stranded(Next(w, e).runs[i], h)
  {
    match e {
      case At(j, step) =>
        if j == i {
          StepKeepsStranded(w.runs[i], w.cache, step, h);
        }
      case NewRun(_) =>
      case HandOver(_) =>
      case AckIn(_) =>
      case OnAck(_, _, _) =>
    }
  }

  lemma {:induction false} AfterKeepsStranded(w: Worker, events: seq<Event>, i: nat, h: InfoHash)
    requires Sound(w) && i < |w.runs| && Stranded(w.runs[i], h)
    ensures i < |After(w, events).runs| && Stranded(After(w, events).runs[i], h)
  {
    if events != [] {
      var front := events[..|events| - 1];
      AfterKeepsStranded(w, front, i, h);
      AfterKeepsSound(w, front);
      NextKeepsStranded(After(w, front), events[|events| - 1], i, h);
    }
  }

  lemma StrandedIsRefused(w: Worker, i: nat, h: InfoHash, now: int)
    requires Law(w, h) && i < |w.runs| && Stranded(w.runs[i], h)
    ensures !Cache.Added(w.cache, h, now).1
  {
    TotalUpdate(w.runs, i, w.runs[i], h);
    assert h in w.cache.Pinned();
  }

  /**
   * What a stopped run strands, tracked or drained, is never crawled again by this process:
   * its infohash stays known without an end date and is refused whatever happens next.
   */
  lemma StoppedRunsStrand(w: Worker, events: seq<Event>, i: nat, h: InfoHash, now: int)
    requires Sound(w) && Law(w, h) && i < |w.runs| && Stranded(w.runs[i], h)
    ensures !Cache.Added(After(w, events).cache, h, now).1
  {
    AfterKeepsLaw(w, events, h);
    AfterKeepsStranded(w, events, i, h);
    StrandedIsRefused(After(w, events), i, h, now);
  }

  /** After these events the cache takes the infohash as new. */
  ghost predicate TakesAgain(w: Worker, events: seq<Event>, h: InfoHash, now: int) {
    Cache.Added(After(w, events).cache, h, now).1
  }

  lemma AfterOne(w: Worker, e: Event)
    ensures After(w, [e]) == Next(w, e)
  {
    assert [e][..0] == [];
  }

  lemma AfterTwo(w: Worker, e: Event, f: Event)
    ensures After(w, [e, f]) == Next(Next(w, e), f)
  {
    assert [e, f][..1] == [e];
    AfterOne(w, e);
  }

  lemma DiscardReleases(w: Worker, i: nat, h: InfoHash, now: int)
    requires i < |w.runs| && h in w.runs[i].discards
    ensures Cache.Added(Next(w, At(i, Discard(h))).cache, h, now).1
  {
  }

  /**
   * An infohash that a terminated run holds can be accepted again by some continuation
   * exactly when it is on its way out already.
   */
  lemma StoppedRunsRelease(w: Worker, i: nat, h: InfoHash, now: int)
    requires Sound(w) && Law(w, h) && i < |w.runs|
    requires w.runs[i].sink.terminated && RunCount(w.runs[i], h) > 0
    ensures (exists events :: TakesAgain(w, events, h, now)) <==> OnItsWayOut(w.runs[i], h)
  {
    var r := w.runs[i];
    assert RunOk(r);
    if h in r.discards {
      AfterOne(w, At(i, Discard(h)));
      DiscardReleases(w, i, h, now);
      assert TakesAgain(w, [At(i, Discard(h))], h, now);
    } else if OnItsWayOut(r, h) {
      AfterTwo(w, At(i, Fail(h)), At(i, Discard(h)));
      DiscardReleases(Next(w, At(i, Fail(h))), i, h, now);
      assert TakesAgain(w, [At(i, Fail(h)), At(i, Discard(h))], h, now);
    } else {
      forall events
        ensures !TakesAgain(w, events, h, now)
      {
        StoppedRunsStrand(w, events, i, h, now);
      }
    }
  }

  // ----------------------------------------------------------- it does happen

  /** w' can come about from w. */
  ghost predicate Reaches(w: Worker, w': Worker) {
    exists events :: After(w, events) == w'
  }

  lemma ReachesItself(w: Worker)
    ensures Reaches(w, w)
  {
    assert After(w, []) == w;
  }

  lemma OneMoreStep(w: Worker, w1: Worker, e: Event)
    requires Reaches(w, w1)
    ensures Reaches(w, Next(w1, e))
  {
    var events :| After(w, events) == w1;
    assert (events + [e])[..|events|] == events;
    assert After(w, events + [e]) == Next(w1, e);
  }

  /** A worker whose only run tracks the infohash, its only peer being tried. */
  ghost predicate Tracking(w: Worker, h: InfoHash) {
    && |w.runs| == 1 && w.runs[0].hand.Idle? && w.runs[0].sending.None? && !w.runs[0].sink.terminated
    && w.runs[0].failing == multiset{} && w.runs[0].discards == multiset{} && w.runs[0].drain == []
    && h in w.runs[0].sink.waiting && w.runs[0].sink.waiting[h] == [] && h in w.runs[0].sink.attempts
  }

  lemma TrackingHappens(limit: int, file: seq<Record>, h: InfoHash, peer: AddrPort, now: int) returns (w: Worker)
    requires peer.Usable()
    ensures Reaches(Init(limit, file), w) && Tracking(w, h)
    ensures w.queue == Restored(limit, file) && w.acked == [] && h in w.cache.known && w.cache.expiry == map[]
  {
    var w0 := Init(limit, file);
    var r := S.Result(h, [peer], 0);
    assert S.FreshPeers([peer], {}) == [peer];
    ReachesItself(w0);
    OneMoreStep(w0, w0, NewRun(1));
    var w1 := Next(w0, NewRun(1));
    OneMoreStep(w0, w1, At(0, Found(r, now)));
    var w2 := Next(w1, At(0, Found(r, now)));
    OneMoreStep(w0, w2, At(0, SinkIt));
    w := Next(w2, At(0, SinkIt));
  }

  /** Stopping while a download goes on strands what is tracked. */
  lemma TrackedIsStranded(limit: int, h: InfoHash, peer: AddrPort, now: int) returns (w: Worker)
    requires peer.Usable()
    ensures Reaches(Init(limit, []), w) && |w.runs| == 1
    ensures Stranded(w.runs[0], h) && h in w.runs[0].sink.waiting
  {
    var w1 := TrackingHappens(limit, [], h, peer, now);
    OneMoreStep(Init(limit, []), w1, At(0, Stop));
    w := Next(w1, At(0, Stop));
  }

  /** Stopping before the drain is read strands what is drained. */
  lemma DrainedIsStranded(limit: int, md: Metadata, peer: AddrPort, now: int) returns (w: Worker)
    requires peer.Usable()
    ensures Reaches(Init(limit, []), w) && |w.runs| == 1
    ensures Stranded(w.runs[0], md.infoHash) && Count(w.runs[0].drain, md.infoHash) > 0
  {
    var w0 := Init(limit, []);
    var w1 := TrackingHappens(limit, [], md.infoHash, peer, now);
    var w2 := DrainedFrom(w0, w1, md);
    OneMoreStep(w0, w2, At(0, Stop));
    w := Next(w2, At(0, Stop));
  }

  /** A download succeeds and its metadata goes into the drain. */
  lemma DrainedFrom(w0: Worker, w1: Worker, md: Metadata) returns (w: Worker)
    requires Reaches(w0, w1) && Tracking(w1, md.infoHash)
    ensures Reaches(w0, w) && |w.runs| == 1 && w.runs[0].hand.Idle? && w.runs[0].sending.None?
    ensures !w.runs[0].sink.terminated && w.runs[0].discards == multiset{} && w.runs[0].failing == multiset{}
    ensures |w.runs[0].drain| == 1 && w.runs[0].drain[0].infoHash == md.infoHash
    ensures w.queue == w1.queue && w.cache == w1.cache && w.acked == w1.acked
  {
    OneMoreStep(w0, w1, At(0, Succeed(md)));
    var w2 := Next(w1, At(0, Succeed(md)));
    OneMoreStep(w0, w2, At(0, Send));
    w := Next(w2, At(0, Send));
  }

  /** Stopping while the last attempt fails past its check lets the infohash go. */
  lemma FailingIsReleased(limit: int, h: InfoHash, peer: AddrPort, now: int) returns (w: Worker)
    requires peer.Usable()
    ensures Reaches(Init(limit, []), w) && |w.runs| == 1
    ensures w.runs[0].sink.terminated && h in w.runs[0].sink.waiting && OnItsWayOut(w.runs[0], h)
  {
    var w0 := Init(limit, []);
    var w1 := TrackingHappens(limit, [], h, peer, now);
    var w2 := CheckedFrom(w0, w1, h);
    OneMoreStep(w0, w2, At(0, Stop));
    w := Next(w2, At(0, Stop));
  }

  /** The only attempt fails and finds the sink running. */
  lemma CheckedFrom(w0: Worker, w1: Worker, h: InfoHash) returns (w: Worker)
    requires Reaches(w0, w1) && Tracking(w1, h)
    ensures Reaches(w0, w) && |w.runs| == 1 && w.runs[0].hand.Idle? && w.runs[0].sending.None?
    ensures h in w.runs[0].failing && h in w.runs[0].sink.waiting && w.runs[0].sink.waiting[h] == []
  {
    OneMoreStep(w0, w1, At(0, Check(h)));
    w := Next(w1, At(0, Check(h)));
    assert w.runs[0] == RunStep(w1.runs[0], w1.cache, Check(h)).0;
  }

  /**
   * Restored infohashes are different: one can be found again, queued a second time, and
   * then be acknowledged while it has an end date already, so that its own call may evict it.
   */
  lemma RestoredEndsTwice(limit: int, md: Metadata, peer: AddrPort, now: int) returns (w: Worker)
    requires peer.Usable() && limit != 1
    ensures Reaches(Init(limit, [Record(1, md)]), w)
    ensures |w.acked| == 1 && w.acked[0].infoHash == md.infoHash
    ensures md.infoHash in w.cache.known && md.infoHash in w.cache.expiry
  {
    var file := [Record(1, md)];
    var w0 := Init(limit, file);
    var w1 := TrackingHappens(limit, file, md.infoHash, peer, now);
    var w2 := DrainedFrom(w0, w1, md);
    var w3, md' := QueuedFrom(w0, w2, md.infoHash);
    var id := MaxID(file) + 1;
    assert file[0] in file && id > 1;
    assert w3.queue.items == [Record(1, md), Record(id, md')];
    w := BothAcked(w0, w3, md.infoHash, now);
  }

  /** The crawl loop takes from the drain and enqueues. */
  lemma QueuedFrom(w0: Worker, w1: Worker, h: InfoHash) returns (w: Worker, md: Metadata)
    requires Reaches(w0, w1) && |w1.runs| == 1 && w1.runs[0].hand.Idle? && !w1.runs[0].sink.terminated
    requires w1.runs[0].drain != [] && w1.runs[0].drain[0].infoHash == h
    requires |w1.queue.items| < w1.queue.limit
    ensures Reaches(w0, w) && w.cache == w1.cache && w.acked == w1.acked
    ensures w.queue == Enqueued(w1.queue, md).0 && md.infoHash == h
  {
    OneMoreStep(w0, w1, At(0, Take));
    var w2 := Next(w1, At(0, Take));
    OneMoreStep(w0, w2, HandOver(0));
    w := Next(w2, HandOver(0));
    md := w1.runs[0].drain[0];
  }

  lemma BothAcked(w0: Worker, w4: Worker, h: InfoHash, now: int) returns (w: Worker)
    requires Reaches(w0, w4) && w4.acked == [] && h in w4.cache.known && w4.cache.expiry == map[]
    requires |w4.queue.items| == 2 && w4.queue.items[0].id != w4.queue.items[1].id
    requires w4.queue.items[0].metadata.infoHash == w4.queue.items[1].metadata.infoHash == h
    ensures Reaches(w0, w) && |w.acked| == 1 && w.acked[0].infoHash == h && h in w.cache.known && h in w.cache.expiry
  {
    var first, second := w4.queue.items[0], w4.queue.items[1];
    assert w4.queue.items == [first, second];
    AckOneOfTwo(first, second);
    OneMoreStep(w0, w4, AckIn({first.id}));
    var w5 := Next(w4, AckIn({first.id}));
    OneMoreStep(w0, w5, OnAck(0, now, h));
    var w6 := Next(w5, OnAck(0, now, h));
    OneMoreStep(w0, w6, AckIn({second.id}));
    w := Next(w6, AckIn({second.id}));
  }

  lemma AckOneOfTwo(first: Record, second: Record)
    requires first.id != second.id
    ensures Removed([first, second], {first.id}) == [first] && Kept([first, second], {first.id}) == [second]
    ensures Removed([second], {second.id}) == [second]
  {
    SplitSnoc([], first, {first.id});
    SplitSnoc([first], second, {first.id});
    SplitSnoc([], second, {second.id});
    assert [] + [first] == [first] && [] + [second] == [second] && [first] + [second] == [first, second];
  }
}
