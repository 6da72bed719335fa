/**
 * The queue's disk snapshot. The saver clears a dirty flag, copies the queue under
 * its lock, writes a temporary file and renames it over the old one, while other
 * threads change the queue under the lock and set the flag before unlocking.
 */
module Snapshots {
  import opened WorkerQueues

  /** Where the single saver is: outside, past the flag, or holding a copy. */
  datatype Saver = Idle | Cleared | Copied(items: seq<Record>)

  /**
   * `locked` says a change holds the lock and has not set the flag yet. A missing
   * file reads as no records.
   */
  datatype Disk = Disk(queue: QueueState, locked: bool, dirty: bool, saver: Saver, file: seq<Record>,
                       added: seq<Record>, acked: seq<Record>)

  datatype Event =
    | Enqueue(md: Metadata)    // append under the lock
    | Ack(ids: set<nat>)       // filter under the lock
    | SetFlag                  // the change sets the flag and unlocks
    | ClearFlag                // the saver's compare-and-swap
    | Copy                     // the saver copies under the lock
    | Rename                   // write and rename succeed
    | Fail                     // any file step fails: the flag is set again

  /** Steps that are not possible leave everything as it is. */
  function Next(d: Disk, e: Event): Disk {
    match e
    case Enqueue(md) =>
      var (q, ok) := Enqueued(d.queue, md);
      if d.locked then d
      else if ok then d.(queue := q, locked := true, added := d.added + [Record(q.nextID, md)])
      else d.(queue := q)
    case Ack(ids) =>
      if d.locked then d
      else d.(queue := Acked(d.queue, ids), locked := true, acked := d.acked + Removed(d.queue.items, ids))
    case SetFlag => if d.locked then d.(dirty := true, locked := false) else d
    case ClearFlag => if d.saver.Idle? && d.dirty then d.(dirty := false, saver := Cleared) else d
    case Copy => if d.saver.Cleared? && !d.locked then d.(saver := Copied(d.queue.items)) else d
    case Rename => if d.saver.Copied? then d.(file := d.saver.items, saver := Idle) else d
    case Fail => if !d.saver.Idle? then d.(dirty := true, saver := Idle) else d
  }

  /** A process start: the queue is what the file says. */
  function Boot(limit: int, file: seq<Record>): Disk {
    Disk(Restored(limit, file), false, false, Idle, file, file, [])
  }

  function Run(limit: int, file: seq<Record>, events: seq<Event>): Disk {
    if events == [] then Boot(limit, file)
    else Next(Run(limit, file, events[..|events| - 1]), events[|events| - 1])
  }

  ghost predicate Inv(d: Disk) {
    && Conserved(d.queue, d.added, d.acked)
    && (!d.dirty && !d.locked && d.saver.Idle? ==> d.file == d.queue.items)
    && (!d.dirty && !d.locked && d.saver.Copied? ==> d.saver.items == d.queue.items)
  }

  lemma EnqueueKeepsInv(d: Disk, md: Metadata)
    requires Inv(d)
    ensures Inv(Next(d, Enqueue(md)))
  {
    if Enqueued(d.queue, md).1 {
      OfferConserves(d.queue, d.added, d.acked, md);
    }
  }

  lemma AckKeepsInv(d: Disk, ids: set<nat>)
    requires Inv(d)
    ensures Inv(Next(d, Ack(ids)))
  {
    AckConserves(d.queue, d.added, d.acked, ids);
  }

  lemma NextKeepsInv(d: Disk, e: Event)
    requires Inv(d)
    ensures Inv(Next(d, e))
  {
    match e {
      case Enqueue(md) => EnqueueKeepsInv(d, md);
      case Ack(ids) => AckKeepsInv(d, ids);
      case _ =>
    }
  }

  lemma {:induction false} RunKeepsInv(limit: int, file: seq<Record>, events: seq<Event>)
    requires Ascending(file)
    ensures Inv(Run(limit, file, events))
  {
    if events != [] {
      RunKeepsInv(limit, file, events[..|events| - 1]);
      NextKeepsInv(Run(limit, file, events[..|events| - 1]), events[|events| - 1]);
    }
  }

  /**
   * With no save and no change under way and the flag clear, the file holds exactly the
   * records that were added and not acked, so a restart brings back exactly those.
   */
  lemma QuietFileIsQueue(limit: int, file: seq<Record>, events: seq<Event>)
    requires Ascending(file)
    ensures var d := Run(limit, file, events);
            !d.dirty && !d.locked && d.saver.Idle? ==>
              && d.file == d.queue.items
              && multiset(Boot(limit, d.file).queue.items) == multiset(d.added) - multiset(d.acked)
  {
    RunKeepsInv(limit, file, events);
  }

  /** What the queue held after the first k events of a run. */
  ghost predicate WasQueue(limit: int, file: seq<Record>, events: seq<Event>, items: seq<Record>, k: nat) {
    k <= |events| && Run(limit, file, events[..k]).queue.items == items
  }

  lemma {:induction false} PastMoments(limit: int, file: seq<Record>, events: seq<Event>) returns (k: nat, c: nat)
    ensures var d := Run(limit, file, events);
            && WasQueue(limit, file, events, d.file, k)
            && (d.saver.Copied? ==> WasQueue(limit, file, events, d.saver.items, c))
  {
    k, c := 0, 0;
    if events != [] {
      var n := |events| - 1;
      var front := events[..n];
      k, c := PastMoments(limit, file, front);
      assert front[..k] == events[..k] && (c <= n ==> front[..c] == events[..c]);
      match events[n] {
        case Rename => k := if Run(limit, file, front).saver.Copied? then c else k;
        case Copy => c := if Run(limit, file, front).saver.Cleared? then n else c;
        case _ =>
      }
    }
  }

  /** At every moment the file is what the queue held at some earlier moment: a save is never torn. */
  lemma FileIsPastQueue(limit: int, file: seq<Record>, events: seq<Event>)
    ensures exists k :: WasQueue(limit, file, events, Run(limit, file, events).file, k)
  {
    var k, _ := PastMoments(limit, file, events);
  }

  /** The file of a process that starts from an ascending one ascends at every moment. */
  lemma FileAscends(limit: int, file: seq<Record>, events: seq<Event>)
    requires Ascending(file)
    ensures Ascending(Run(limit, file, events).file)
  {
    var k, _ := PastMoments(limit, file, events);
    RunKeepsInv(limit, file, events[..k]);
  }

  /** The file after any number of processes, each started from what the one before left, the first from no file. */
  function FileAfter(limit: int, lives: seq<seq<Event>>): seq<Record> {
    if lives == [] then []
    else Run(limit, FileAfter(limit, lives[..|lives| - 1]), lives[|lives| - 1]).file
  }

  /**
   * Whatever is restarted when, the file a process starts from ascends, as what is proved
   * here of one process asks for.
   */
  lemma {:induction false} RestartsAscend(limit: int, lives: seq<seq<Event>>)
    ensures Ascending(FileAfter(limit, lives))
  {
    if lives != [] {
      RestartsAscend(limit, lives[..|lives| - 1]);
      FileAscends(limit, FileAfter(limit, lives[..|lives| - 1]), lives[|lives| - 1]);
    }
  }

  /**
   * A change that gets the lock does to the queue what it would do alone and, with the step
   * after it, marks the file as out of date; while another change holds the lock nothing moves.
   */
  lemma ChangeMarksDirty(d: Disk, md: Metadata, ids: set<nat>)
    ensures d.locked ==> Next(d, Enqueue(md)) == Next(d, Ack(ids)) == d && Next(d, Copy) == d
    ensures !d.locked ==>
              var d' := Next(Next(d, Enqueue(md)), SetFlag);
              && d'.queue == Enqueued(d.queue, md).0 && d'.file == d.file && d'.saver == d.saver && !d'.locked
              && (|d.queue.items| < d.queue.limit ==>
                    d'.dirty && d'.added == d.added + [Record(d.queue.nextID + 1, md)])
    ensures !d.locked ==>
              var d' := Next(Next(d, Ack(ids)), SetFlag);
              && d'.queue == Acked(d.queue, ids) && d'.acked == d.acked + Removed(d.queue.items, ids)
              && d'.dirty && !d'.locked && d'.file == d.file && d'.saver == d.saver
  {
  }

  /** A process starts with the records of the file, its flag clear and no save under way. */
  lemma BootDecides(limit: int, file: seq<Record>)
    ensures var d := Boot(limit, file);
            d.queue == Restored(limit, file) && d.file == file && !d.dirty && !d.locked && d.saver.Idle?
  {
  }

  /** A save that no change interrupts makes the file equal the queue; a failed one leaves file and flag. */
  lemma UndisturbedSave(d: Disk)
    requires Inv(d) && d.dirty && !d.locked && d.saver.Idle?
    ensures var d' := Next(Next(Next(d, ClearFlag), Copy), Rename);
            d'.file == d.queue.items == d'.queue.items && !d'.dirty && d'.saver.Idle?
    ensures var d' := Next(Next(Next(d, ClearFlag), Copy), Fail);
            d'.file == d.file && d'.dirty && d'.saver.Idle?
  {
  }

  /** saveToCache when no other thread runs. `path` says a cache path is set, `ok` that the file steps succeed. */
  method SaveToCache(q: WorkerQueue, path: bool, ok: bool, file: seq<Record>) returns (file': seq<Record>)
    requires q.Valid()
    modifies q`dirty
    ensures q.Valid() && q.View() == old(q.View())
    ensures file' == if path && old(q.dirty) && ok then q.View().items else file
    ensures q.dirty == (old(q.dirty) && !(path && ok))
  {
    if !path || !q.dirty {
      return file;
    }
    q.dirty := false;
    var items, _ := q.Batch(0);
    if !ok {
      q.dirty := true;
      return file;
    }
    return items;
  }

  /** What a run has added starts with the restored records; everything newer has a larger ID. */
  ghost predicate Newer(file: seq<Record>, d: Disk) {
    && |file| <= |d.added| && d.added[..|file|] == file
    && MaxID(file) <= d.queue.nextID
    && forall i :: |file| <= i < |d.added| ==> d.added[i].id > MaxID(file)
  }

  lemma NextKeepsNewer(file: seq<Record>, d: Disk, e: Event)
    requires Newer(file, d)
    ensures Newer(file, Next(d, e))
  {
    if e.Enqueue? && Enqueued(d.queue, e.md).1 && !d.locked {
      var r := Record(d.queue.nextID + 1, e.md);
      assert (d.added + [r])[..|file|] == d.added[..|file|];
    }
  }

  /** After any restart, every record the new process adds has an ID above every restored one. */
  lemma {:induction false} NewIDsExceedRestored(limit: int, file: seq<Record>, events: seq<Event>)
    ensures Newer(file, Run(limit, file, events))
  {
    if events != [] {
      var front := events[..|events| - 1];
      NewIDsExceedRestored(limit, file, front);
      NextKeepsNewer(file, Run(limit, file, front), events[|events| - 1]);
    }
  }
}
