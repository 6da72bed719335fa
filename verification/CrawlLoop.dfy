/** The two cases of the crawl loop, on the cache, sink and queue objects, when nothing runs in between. */
module CrawlLoop {
  import opened Basics
  import opened WorkerQueues
  import Cache = HashCache
  import S = Sinks
  import P = Pipeline

  function LoopOf(s: S.SinkState): P.CrawlRun {
    P.CrawlRun(s, multiset{}, None, [], multiset{}, P.Idle)
  }

  /** The pipeline steps that handling one DHT result is made of. */
  function Handled(s: S.SinkState, c: Cache.CacheState, r: S.Result, now: int): (P.CrawlRun, Cache.CacheState) {
    var (r1, c1) := P.RunStep(LoopOf(s), c, P.Found(r, now));
    var (r2, c2) := P.RunStep(r1, c1, if r1.hand.Adding? then P.SinkIt else P.Offer);
    P.RunStep(r2, c2, P.Reject)
  }

  /** The composed steps, branch by branch. */
  lemma HandledByBranch(s: S.SinkState, c: Cache.CacheState, r: S.Result, now: int)
    requires !s.terminated
    ensures var ((c1, added), (s1, ok)) := (Cache.Added(c, r.infoHash, now), S.Sunk(s, r));
            Handled(s, c, r, now) ==
            if !added then (LoopOf(S.PeersAdded(s, r).0), c1)
            else (LoopOf(s1), if ok then c1 else Cache.Forgotten(c1, r.infoHash))
  {
  }

  /** A DHT result, in the objects' own terms. */
  method OnResult(cache: Cache.InfoHashCache, sink: S.Sink, r: S.Result, now: int)
    requires sink.Valid() && !sink.terminated
    modifies cache, sink
    ensures sink.Valid()
    ensures (LoopOf(sink.model), cache.View()) == Handled(old(sink.model), old(cache.View()), r, now)
  {
    HandledByBranch(sink.model, cache.View(), r, now);
    var added := cache.Add(r.infoHash, now);
    if added {
      var sunk, start := sink.SinkResult(r);
      if !sunk {
        cache.Remove(r.infoHash);
      }
    } else {
      var _ := sink.AddPeers(r);
    }
  }

  /** Metadata from the drain, on a worker: enqueue, and forget the infohash if the queue is full. */
  method OnMetadata(cache: Cache.InfoHashCache, queue: WorkerQueue, md: Metadata) returns (accepted: bool)
    requires queue.Valid()
    modifies cache, queue, queue.buf
    ensures queue.Valid() && (queue.View(), accepted) == Enqueued(old(queue.View()), md)
    ensures cache.View() == if accepted then old(cache.View()) else Cache.Forgotten(old(cache.View()), md.infoHash)
  {
    accepted := queue.Enqueue(md);
    if !accepted {
      cache.Remove(md.infoHash);
    }
  }
}
