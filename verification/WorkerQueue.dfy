/**
 * The worker's bounded queue of found torrents. Records get increasing IDs and
 * stay queued until their ID is acknowledged.
 */
module WorkerQueues {
  import opened Basics

  /** The parts of a torrent's metadata the transfer looks at, and one it only carries. */
  datatype Metadata = Metadata(infoHash: InfoHash, family: int, name: string)

  datatype Record = Record(id: nat, metadata: Metadata)

  /** The abstract queue. `flushed` counts acknowledged records. */
  datatype QueueState = QueueState(limit: nat, nextID: nat, items: seq<Record>, dropped: nat, flushed: nat)

  function Enqueued(q: QueueState, md: Metadata): (QueueState, bool) {
    if |q.items| >= q.limit then
      (q.(dropped := q.dropped + 1), false)
    else
      (q.(nextID := q.nextID + 1, items := q.items + [Record(q.nextID + 1, md)]), true)
  }

  /** A batch is a copy of a prefix; a limit below one or above the length means everything. */
  function BatchOf(q: QueueState, limit: int): (batch: seq<Record>)
    ensures batch <= q.items
  {
    q.items[..if limit < 1 || limit > |q.items| then |q.items| else limit]
  }

  function Kept(items: seq<Record>, ids: set<nat>): seq<Record> {
    if items == [] then [] else
    (if items[0].id in ids then [] else [items[0]]) + Kept(items[1..], ids)
  }

  function Removed(items: seq<Record>, ids: set<nat>): seq<Record> {
    if items == [] then [] else
    (if items[0].id in ids then [items[0]] else []) + Removed(items[1..], ids)
  }

  function Acked(q: QueueState, ids: set<nat>): QueueState {
    q.(items := Kept(q.items, ids), flushed := q.flushed + |Removed(q.items, ids)|)
  }

  function MaxID(items: seq<Record>): (m: nat)
    ensures forall r :: r in items ==> r.id <= m
  {
    if items == [] then 0 else
    var m := MaxID(items[..|items| - 1]);
    assert items == items[..|items| - 1] + [items[|items| - 1]];
    if items[|items| - 1].id > m then items[|items| - 1].id else m
  }

  /** A queue as a process starts it: the records of the cache file, if there is one. */
  function Restored(limit: int, file: seq<Record>): QueueState {
    QueueState(if limit < 1 then 256 else limit, MaxID(file), file, 0, 0)
  }

  function IdsOf(items: seq<Record>): (ids: seq<nat>)
    ensures |ids| == |items| && forall i :: 0 <= i < |items| ==> ids[i] == items[i].id
  {
    seq(|items|, i requires 0 <= i < |items| => items[i].id)
  }

  function MetadataOf(items: seq<Record>): (mds: seq<Metadata>)
    ensures |mds| == |items| && forall i :: 0 <= i < |items| ==> mds[i] == items[i].metadata
  {
    seq(|items|, i requires 0 <= i < |items| => items[i].metadata)
  }

  function Elements(ids: seq<nat>): set<nat> {
    set id | id in ids
  }

  ghost predicate Ascending(items: seq<Record>) {
    forall i, j :: 0 <= i < j < |items| ==> items[i].id < items[j].id
  }

  /** Below its limit the queue takes a record, at its end and under the next ID; from there on it counts a drop. */
  lemma EnqueueDecides(q: QueueState, md: Metadata)
    ensures var (q', ok) := Enqueued(q, md);
            && q'.limit == q.limit && q'.flushed == q.flushed
            && (ok <==> |q.items| < q.limit)
            && (ok ==> q'.items == q.items + [Record(q.nextID + 1, md)] && q'.nextID == q.nextID + 1
                       && q'.dropped == q.dropped)
            && (!ok ==> q'.items == q.items && q'.nextID == q.nextID && q'.dropped == q.dropped + 1)
  {
  }

  /** The largest ID is an ID of the list, or zero for an empty one. */
  lemma {:induction false} MaxIDOccurs(items: seq<Record>)
    ensures if items == [] then MaxID(items) == 0 else exists i :: 0 <= i < |items| && items[i].id == MaxID(items)
  {
    if items != [] {
      var n := |items| - 1;
      MaxIDOccurs(items[..n]);
      if items[n].id <= MaxID(items[..n]) && n > 0 {
        var i :| 0 <= i < n && items[..n][i].id == MaxID(items[..n]);
        assert items[i].id == MaxID(items);
      } else {
        assert items[n].id == MaxID(items);
      }
    }
  }

  /** A start keeps the file's records in order, with room for 256 where no limit is configured. */
  lemma RestoreDecides(limit: int, file: seq<Record>)
    ensures var q := Restored(limit, file);
            && q.items == file && q.dropped == 0 && q.flushed == 0
            && q.limit == (if limit < 1 then 256 else limit)
  {
  }

  /** A batch is all there is, or as many records from the front as were asked for. */
  lemma BatchDecides(q: QueueState, limit: int)
    ensures BatchOf(q, limit) == if 1 <= limit <= |q.items| then q.items[..limit] else q.items
  {
  }

  // ------------------------------------------------------------- about acks

  lemma AppendAscending(items: seq<Record>, r: Record)
    requires Ascending(items) && forall x :: x in items ==> x.id < r.id
    ensures Ascending(items + [r])
  {
  }

  /** An ack splits the queue: what is kept and what is removed together are what was there. */
  lemma {:induction false} AckSplits(items: seq<Record>, ids: set<nat>)
    ensures multiset(items) == multiset(Kept(items, ids)) + multiset(Removed(items, ids))
    ensures forall r :: r in Kept(items, ids) <==> r in items && r.id !in ids
    ensures forall r :: r in Removed(items, ids) <==> r in items && r.id in ids
  {
    if items != [] {
      AckSplits(items[1..], ids);
      assert items == [items[0]] + items[1..];
    }
  }

  lemma {:induction false} KeptAscending(items: seq<Record>, ids: set<nat>)
    requires Ascending(items)
    ensures Ascending(Kept(items, ids))
  {
    if items != [] {
      KeptAscending(items[1..], ids);
      AckSplits(items[1..], ids);
    }
  }

  /** Records are neither lost nor made: accepted ones are queued or removed. */
  ghost predicate Conserved(q: QueueState, accepted: seq<Record>, removed: seq<Record>) {
    && Ascending(accepted)
    && Ascending(q.items)
    && (forall r :: r in accepted ==> r.id <= q.nextID)
    && multiset(accepted) == multiset(q.items) + multiset(removed)
    && q.flushed == |removed|
  }

  lemma QueuedAreAccepted(items: seq<Record>, accepted: seq<Record>, removed: seq<Record>)
    requires multiset(accepted) == multiset(items) + multiset(removed)
    ensures forall r :: r in items ==> r in accepted
  {
    forall r | r in items
      ensures r in accepted
    {
      assert multiset(items)[r] > 0;
      assert multiset(accepted)[r] > 0;
    }
  }

  lemma OfferConserves(q: QueueState, accepted: seq<Record>, removed: seq<Record>, md: Metadata)
    requires Conserved(q, accepted, removed) && Enqueued(q, md).1
    ensures Conserved(Enqueued(q, md).0, accepted + [Record(q.nextID + 1, md)], removed)
  {
    var r := Record(q.nextID + 1, md);
    QueuedAreAccepted(q.items, accepted, removed);
    AppendAscending(q.items, r);
    AppendAscending(accepted, r);
    SnocMultiset(accepted, r);
    SnocMultiset(q.items, r);
  }

  lemma AckConserves(q: QueueState, accepted: seq<Record>, removed: seq<Record>, ids: set<nat>)
    requires Conserved(q, accepted, removed)
    ensures Conserved(Acked(q, ids), accepted, removed + Removed(q.items, ids))
  {
    AckSplits(q.items, ids);
    KeptAscending(q.items, ids);
  }

  lemma {:induction false} SplitSnoc(items: seq<Record>, r: Record, ids: set<nat>)
    ensures Kept(items + [r], ids) == Kept(items, ids) + if r.id in ids then [] else [r]
    ensures Removed(items + [r], ids) == Removed(items, ids) + if r.id in ids then [r] else []
    ensures |Kept(items, ids)| <= |items|
  {
    if items == [] {
      assert [] + [r] == [r];
    } else {
      assert (items + [r])[1..] == items[1..] + [r];
      SplitSnoc(items[1..], r, ids);
    }
  }

  /** One more record of a queue under the filter. */
  lemma SplitNext(items: seq<Record>, i: nat, ids: set<nat>)
    requires i < |items|
    ensures Kept(items[..i + 1], ids) == Kept(items[..i], ids) + if items[i].id in ids then [] else [items[i]]
    ensures Removed(items[..i + 1], ids) == Removed(items[..i], ids) + if items[i].id in ids then [items[i]] else []
  {
    SplitSnoc(items[..i], items[i], ids);
    assert items[..i + 1] == items[..i] + [items[i]];
  }

  /** Acknowledging a prefix of an ascending queue leaves exactly the rest. */
  lemma {:induction false} AckPrefix(items: seq<Record>, n: nat)
    requires Ascending(items) && n <= |items|
    ensures Kept(items, Elements(IdsOf(items[..n]))) == items[n..]
    ensures Removed(items, Elements(IdsOf(items[..n]))) == items[..n]
  {
    var ids := Elements(IdsOf(items[..n]));
    forall i | 0 <= i < |items|
      ensures items[i].id in ids <==> i < n
    {
      if i < n {
        assert IdsOf(items[..n])[i] == items[i].id;
      }
    }
    SplitAt(items, ids, n);
  }

  lemma {:induction false} SplitAt(items: seq<Record>, ids: set<nat>, n: nat)
    requires n <= |items| && forall i :: 0 <= i < |items| ==> (items[i].id in ids <==> i < n)
    ensures Kept(items, ids) == items[n..] && Removed(items, ids) == items[..n]
  {
    if items != [] {
      var tail, m := items[1..], if n > 0 then n - 1 else 0;
      forall i | 0 <= i < |tail|
        ensures tail[i].id in ids <==> i < m
      {
        assert tail[i] == items[i + 1];
      }
      SplitAt(tail, ids, m);
      if n > 0 {
        assert items[..n] == [items[0]] + tail[..m] && items[n..] == tail[m..];
      } else {
        assert items[0..] == [items[0]] + tail[0..] && items[..0] == tail[..0];
      }
    }
  }

  // --------------------------------------------------------------- the class

  /** The queue as it is stored: a growable buffer whose first `len` places are in use. */
  class WorkerQueue {
    const limit: nat
    var nextID: nat
    var buf: array<Record>
    var len: nat
    var dropped: nat
    var flushed: nat
    var batches: nat
    var dirty: bool

    ghost predicate Valid()
      reads this
    {
      len <= buf.Length
    }

    ghost function View(): QueueState
      requires Valid()
      reads this, buf
    {
      QueueState(limit, nextID, buf[..len], dropped, flushed)
    }

    /** NewWorkerQueue with loadFromCache: every restored ID is scanned for the next one. */
    constructor (limit: int, file: seq<Record>)
      ensures Valid() && fresh(buf) && !dirty
      ensures View() == Restored(limit, file)
    {
      this.limit := if limit < 1 then 256 else limit;
      nextID, dropped, flushed, batches, dirty := 0, 0, 0, 0, false;
      len := |file|;
      buf := new Record[|file|](i requires 0 <= i < |file| => file[i]);
      new;
      for i := 0 to |file|
        invariant nextID == MaxID(file[..i])
        invariant Valid() && fresh(buf) && buf[..len] == file && dropped == flushed == 0 && !dirty
      {
        assert file[..i + 1][..i] == file[..i];
        if file[i].id > nextID {
          nextID := file[i].id;
        }
      }
      assert file[..|file|] == file;
    }

    /** append: in place while there is room, otherwise into a larger copy. */
    method Append(r: Record)
      requires Valid()
      modifies this`buf, this`len, buf
      ensures Valid() && (buf == old(buf) || fresh(buf))
      ensures buf[..len] == old(buf[..len]) + [r]
    {
      if len == buf.Length {
        var bigger := new Record[2 * len + 1](_ => r);
        for i := 0 to len
          modifies bigger
          invariant bigger[..i] == buf[..i]
        {
          bigger[i] := buf[i];
        }
        buf := bigger;
      }
      buf[len] := r;
      len := len + 1;
    }

    method Enqueue(md: Metadata) returns (accepted: bool)
      requires Valid()
      modifies this`nextID, this`buf, this`len, this`dropped, this`dirty, buf
      ensures Valid() && (buf == old(buf) || fresh(buf))
      ensures (View(), accepted) == Enqueued(old(View()), md)
      ensures dirty == (old(dirty) || accepted)
    {
      if len >= limit {
        dropped := dropped + 1;
        return false;
      }
      nextID := nextID + 1;
      Append(Record(nextID, md));
      dirty := true;
      return true;
    }

    method Batch(limit: int) returns (items: seq<Record>, queued: nat)
      requires Valid()
      ensures items == BatchOf(View(), limit) && queued == |View().items|
    {
      var n := if limit < 1 || limit > len then len else limit;
      return buf[..n], len;
    }

    /**
     * Filter the buffer in place: kept records move down over removed ones while the
     * scan goes on in the same buffer.
     */
    method Filter(acked: set<nat>) returns (kept: nat, released: seq<Metadata>)
      requires Valid()
      modifies buf
      ensures kept <= len && buf[..kept] == Kept(old(buf[..len]), acked)
      ensures released == MetadataOf(Removed(old(buf[..len]), acked))
    {
      ghost var items := buf[..len];
      ghost var stay, gone := [], [];
      kept := 0;
      released := [];
      for i := 0 to len
        invariant kept == |stay| <= i && stay == Kept(items[..i], acked)
        invariant forall j :: 0 <= j < kept ==> buf[j] == stay[j]
        invariant forall j :: i <= j < len ==> buf[j] == items[j]
        invariant gone == Removed(items[..i], acked) && released == MetadataOf(gone)
      {
        SplitNext(items, i, acked);
        var item := buf[i];
        if item.id in acked {
          released := released + [item.metadata];
          gone := gone + [item];
        } else {
          buf[kept] := item;
          assert forall j :: 0 <= j < kept ==> buf[j] == stay[j];
          stay := stay + [item];
          kept := kept + 1;
        }
      }
      assert items[..len] == items;
    }

    /** Returns the metadata onAck is then called with. */
    method Ack(ids: seq<nat>) returns (released: seq<Metadata>)
      requires Valid()
      modifies this`len, this`flushed, this`batches, this`dirty, buf
      ensures Valid() && dirty
      ensures View() == Acked(old(View()), Elements(ids))
      ensures released == MetadataOf(Removed(old(View().items), Elements(ids)))
    {
      var kept;
      kept, released := Filter(Elements(ids));
      len := kept;
      dirty := true;
      if |released| > 0 {
        flushed := flushed + |released|;
        batches := batches + 1;
      }
    }
  }
}
