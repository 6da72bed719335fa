/**
 * Saving the routing table and replaying the saved list into a new table,
 * which may have another local ID. Hex and address text are taken to round-trip.
 */
module RoutingReplay {
  import opened Basics
  import opened NetAddr
  import opened XorMetric
  import opened RoutingTables

  const SECOND := 1_000_000_000

  /** One saved line: the time is kept in whole seconds. */
  datatype Entry = Entry(id: seq<byte>, addr: AddrPort, seconds: int)

  function Save(node: Node): Entry {
    Entry(node.id, node.addr, node.lastSeen / SECOND)
  }

  function SaveAll(nodes: seq<Node>): (es: seq<Entry>)
    ensures |es| == |nodes|
    ensures forall i :: 0 <= i < |nodes| ==> es[i] == Save(nodes[i])
  {
    seq(|nodes|, i requires 0 <= i < |nodes| => Save(nodes[i]))
  }

  /** A time at or before the epoch is replaced by the load time. */
  function Seen(e: Entry, now: int): int {
    if e.seconds <= 0 then now else e.seconds * SECOND
  }

  function LoadOne(t: Table, e: Entry, network: Network, now: int): (t': Table)
    requires |t.buckets| == BUCKETS
    ensures |t'.buckets| == BUCKETS
  {
    if |e.id| == 20 && Accepts(network, e.addr) then Added(t, e.id, e.addr, Seen(e, now)).0 else t
  }

  function Replay(t: Table, es: seq<Entry>, network: Network, now: int): (t': Table)
    requires |t.buckets| == BUCKETS
    ensures |t'.buckets| == BUCKETS
  {
    if es == [] then t else LoadOne(Replay(t, es[..|es| - 1], network, now), es[|es| - 1], network, now)
  }

  /** loadRoutingTable: the loop over the saved entries. */
  method LoadRoutingTable(table: RoutingTable, es: seq<Entry>, network: Network, now: int)
    requires table.Valid()
    modifies table`size, table`model, table.slots, table.lens
    ensures table.Valid()
    ensures table.model == Replay(old(table.model), es, network, now)
  {
    for i := 0 to |es|
      invariant table.Valid()
      invariant table.model == Replay(old(table.model), es[..i], network, now)
    {
      assert es[..i + 1][..i] == es[..i];
      if |es[i].id| == 20 && Accepts(network, es[i].addr) {
        var _ := table.Add(es[i].id, es[i].addr, Seen(es[i], now));
      }
    }
    assert es[..|es|] == es;
  }

  /** saveRoutingTable: the list that is written. */
  method SaveRoutingTable(table: RoutingTable) returns (es: seq<Entry>)
    requires table.Valid()
    ensures es == SaveAll(Flatten(table.model.buckets))
  {
    var nodes := table.Snapshot();
    es := [];
    for i := 0 to |nodes|
      invariant |es| == i && forall j :: 0 <= j < i ==> es[j] == Save(nodes[j])
    {
      es := es + [Save(nodes[i])];
    }
  }

  // ------------------------------------------------------ what replay yields

  /** Does an entry belong into bucket b of a table with this local ID? */
  predicate Belongs(e: Entry, local: ID, network: Network, b: int) {
    |e.id| == 20 && Accepts(network, e.addr) && BucketOf(local, e.id) == b
  }

  function InBucket(local: ID, network: Network, b: int): Entry -> bool {
    (e: Entry) => Belongs(e, local, network, b)
  }

  function Restore(e: Entry, now: int): Node {
    Node(Fit(e.id, 20), e.addr, Seen(e, now))
  }

  /** The entries of a list that a test lets through, as nodes, in list order. */
  function Picked(es: seq<Entry>, p: Entry -> bool, now: int): seq<Node> {
    if es == [] then [] else
    Picked(es[..|es| - 1], p, now) + if p(es[|es| - 1]) then [Restore(es[|es| - 1], now)] else []
  }

  /** The nodes of a saved list that map to bucket b. */
  function Mine(es: seq<Entry>, local: ID, network: Network, b: int, now: int): seq<Node> {
    Picked(es, InBucket(local, network, b), now)
  }

  function LastK<T>(s: seq<T>): seq<T> {
    if |s| <= K then s else s[|s| - K..]
  }

  ghost predicate UniqueEntries(es: seq<Entry>) {
    forall i, j :: 0 <= i < j < |es| ==> es[i].id != es[j].id
  }

  lemma PickedSnoc(es: seq<Entry>, e: Entry, p: Entry -> bool, now: int)
    ensures Picked(es + [e], p, now) == Picked(es, p, now) + if p(e) then [Restore(e, now)] else []
  {
    assert (es + [e])[..|es|] == es;
  }

  lemma {:induction false} PickedFrom(es: seq<Entry>, p: Entry -> bool, now: int, n: Node)
    requires n in Picked(es, p, now)
    ensures exists i :: 0 <= i < |es| && p(es[i]) && Restore(es[i], now) == n
  {
    var front := es[..|es| - 1];
    if n in Picked(front, p, now) {
      PickedFrom(front, p, now, n);
      var i :| 0 <= i < |front| && p(front[i]) && Restore(front[i], now) == n;
      assert es[i] == front[i];
    } else {
      assert Restore(es[|es| - 1], now) == n;
    }
  }

  lemma {:induction false} PickedConcat(es: seq<Entry>, fs: seq<Entry>, p: Entry -> bool, now: int)
    ensures Picked(es + fs, p, now) == Picked(es, p, now) + Picked(fs, p, now)
  {
    if fs == [] {
      assert es + fs == es;
    } else {
      var front, last := fs[..|fs| - 1], fs[|fs| - 1];
      assert es + fs == (es + front) + [last];
      PickedSnoc(es + front, last, p, now);
      PickedConcat(es, front, p, now);
      ConcatAssoc(Picked(es, p, now), Picked(front, p, now), if p(last) then [Restore(last, now)] else []);
    }
  }

  /** A list of saved nodes goes through whole or not at all. */
  lemma {:induction false} PickedAlike(nodes: seq<Node>, p: Entry -> bool, now: int, all: bool)
    requires forall n :: n in nodes ==> p(Save(n)) == all
    ensures Picked(SaveAll(nodes), p, now) == if all then ReloadedAll(nodes, now) else []
  {
    if nodes != [] {
      var front, last := nodes[..|nodes| - 1], nodes[|nodes| - 1];
      assert nodes == front + [last] && last in nodes;
      PickedAlike(front, p, now, all);
      SaveSnoc(front, last);
      PickedSnoc(SaveAll(front), Save(last), p, now);
      ReloadSnoc(front, last, now);
    }
  }

  lemma SaveSnoc(front: seq<Node>, last: Node)
    ensures SaveAll(front + [last]) == SaveAll(front) + [Save(last)]
  {
  }

  lemma ReloadSnoc(front: seq<Node>, last: Node, now: int)
    ensures ReloadedAll(front + [last], now) == ReloadedAll(front, now) + [Reloaded(last, now)]
  {
  }

  lemma {:induction false} ReverseMembers<T>(s: seq<T>)
    ensures forall x :: x in Reverse(s) <==> x in s
  {
    if s != [] {
      ReverseMembers(s[1..]);
    }
  }

  /** Putting a node in front of the last K reversed is the last K, reversed, of the longer list. */
  lemma FrontOfLastK(mine: seq<Node>, node: Node)
    ensures |LastK(mine)| <= K
    ensures Reverse(LastK(mine + [node])) ==
            [node] + if |mine| < K then Reverse(LastK(mine)) else Reverse(LastK(mine))[..K - 1]
  {
    if |mine| < K {
      ReverseSnoc(mine, node);
    } else {
      var kept := mine[|mine| - K + 1..];
      assert LastK(mine + [node]) == kept + [node];
      ReverseSnoc(kept, node);
      assert LastK(mine) == [mine[|mine| - K]] + kept;
      assert Reverse(LastK(mine)) == Reverse(kept) + [mine[|mine| - K]];
    }
  }

  /**
   * Replaying distinct entries into an empty table with room for all of them
   * leaves in every bucket the reverse of the last K that map there.
   */
  lemma {:induction false} ReplayBuckets(local: ID, maxNodes: nat, es: seq<Entry>, network: Network, now: int)
    requires UniqueEntries(es)
    requires |es| <= Empty(local, maxNodes).maxNodes
    ensures var t := Replay(Empty(local, maxNodes), es, network, now);
            && Inv(t) && t.local == local && t.maxNodes == Empty(local, maxNodes).maxNodes
            && Size(t.buckets) <= |es|
            && forall b :: 0 <= b < BUCKETS ==>
                             t.buckets[b] == Reverse(LastK(Mine(es, local, network, b, now)))
  {
    EmptySize(BUCKETS);
    if es != [] {
      var n := |es| - 1;
      var e, front := es[n], es[..n];
      assert es == front + [e];
      ReplayBuckets(local, maxNodes, front, network, now);
      ReplayStep(Replay(Empty(local, maxNodes), front, network, now), front, e, network, now);
    }
  }

  lemma ReplayStep(t: Table, front: seq<Entry>, e: Entry, network: Network, now: int)
    requires Inv(t) && UniqueEntries(front + [e])
    requires Size(t.buckets) <= |front| < t.maxNodes
    requires forall b :: 0 <= b < BUCKETS ==>
                           t.buckets[b] == Reverse(LastK(Mine(front, t.local, network, b, now)))
    ensures var t' := LoadOne(t, e, network, now);
            && Inv(t') && t'.local == t.local && t'.maxNodes == t.maxNodes
            && Size(t'.buckets) <= |front| + 1
            && forall b :: 0 <= b < BUCKETS ==>
                             t'.buckets[b] == Reverse(LastK(Mine(front + [e], t.local, network, b, now)))
  {
    AddKeepsInv(t, e.id, e.addr, Seen(e, now));
    if |e.id| == 20 {
      BucketRange(t.local, e.id);
    }
    forall b | 0 <= b < BUCKETS
      ensures LoadOne(t, e, network, now).buckets[b] == Reverse(LastK(Mine(front + [e], t.local, network, b, now)))
    {
      ReplayStepAt(t, front, e, network, b, now);
    }
    if |e.id| == 20 && Accepts(network, e.addr) && e.id != t.local {
      ReplayStepAt(t, front, e, network, BucketOf(t.local, e.id), now);
    }
  }

  lemma ReplayStepAt(t: Table, front: seq<Entry>, e: Entry, network: Network, b: nat, now: int)
    requires Inv(t) && UniqueEntries(front + [e]) && Size(t.buckets) < t.maxNodes && b < BUCKETS
    requires t.buckets[b] == Reverse(LastK(Mine(front, t.local, network, b, now)))
    ensures var t' := LoadOne(t, e, network, now);
            && t'.buckets[b] == Reverse(LastK(Mine(front + [e], t.local, network, b, now)))
            && (Belongs(e, t.local, network, b) ==> Size(t'.buckets) <= Size(t.buckets) + 1)
  {
    var mine, p := Mine(front, t.local, network, b, now), InBucket(t.local, network, b);
    PickedSnoc(front, e, p, now);
    if p(e) {
      BucketStep(t, front, e, network, b, now);
      FrontOfLastK(mine, Restore(e, now));
      SizeOfUpdate(t.buckets, b, LoadOne(t, e, network, now).buckets[b]);
    } else {
      assert mine + [] == mine;
      LoadElsewhere(t, e, network, b, now);
    }
  }

  lemma LoadElsewhere(t: Table, e: Entry, network: Network, b: nat, now: int)
    requires |t.buckets| == BUCKETS && b < BUCKETS && !Belongs(e, t.local, network, b)
    ensures LoadOne(t, e, network, now).buckets[b] == t.buckets[b]
  {
    if |e.id| == 20 {
      BucketRange(t.local, e.id);
    }
  }

  lemma BucketStep(t: Table, front: seq<Entry>, e: Entry, network: Network, b: nat, now: int)
    requires Inv(t) && UniqueEntries(front + [e]) && Size(t.buckets) < t.maxNodes
    requires b < BUCKETS && Belongs(e, t.local, network, b)
    requires t.buckets[b] == Reverse(LastK(Mine(front, t.local, network, b, now)))
    ensures var t', bucket := LoadOne(t, e, network, now), t.buckets[b];
            t'.buckets == t.buckets[b := [Restore(e, now)] + if |bucket| < K then bucket else bucket[..K - 1]]
  {
    var bucket := t.buckets[b];
    forall n | n in bucket
      ensures n.id != e.id
    {
      SavedBefore(front, e, InBucket(t.local, network, b), now, bucket, n);
    }
    NoIndex(bucket, e.id);
    BucketRange(t.local, e.id);
    assert |bucket| <= K by {
      assert GoodBucket(t.local, b, bucket);
    }
  }

  /** A node restored from the entries so far is not the next one. */
  lemma SavedBefore(front: seq<Entry>, e: Entry, p: Entry -> bool, now: int, bucket: seq<Node>, n: Node)
    requires UniqueEntries(front + [e]) && |e.id| == 20 && forall f :: p(f) ==> |f.id| == 20
    requires bucket == Reverse(LastK(Picked(front, p, now))) && n in bucket
    ensures n.id != e.id
  {
    ReverseMembers(LastK(Picked(front, p, now)));
    assert n in Picked(front, p, now);
    PickedFrom(front, p, now, n);
    var i :| 0 <= i < |front| && p(front[i]) && Restore(front[i], now) == n;
    assert (front + [e])[i] == front[i] && (front + [e])[|front|] == e;
  }

  // ------------------------------------------------- back under the same ID

  /** A node as a restart brings it back. */
  function Reloaded(node: Node, now: int): Node {
    Restore(Save(node), now)
  }

  /** ID, address and port survive a restart; the time is cut to seconds, or is the load time if that leaves none. */
  lemma ReloadDecides(node: Node, now: int)
    ensures Reloaded(node, now).id == node.id && Reloaded(node, now).addr == node.addr
    ensures node.lastSeen >= 1_000_000_000 ==>
              0 <= node.lastSeen - Reloaded(node, now).lastSeen < 1_000_000_000 &&
              Reloaded(node, now).lastSeen % 1_000_000_000 == 0
    ensures node.lastSeen < 1_000_000_000 ==> Reloaded(node, now).lastSeen == now
  {
    var q := node.lastSeen / SECOND;
    assert node.lastSeen == SECOND * q + node.lastSeen % SECOND;
    assert (q * SECOND) % SECOND == 0;
  }

  /** An entry with an ID of another length, of the other family or without a port is passed over; others are added. */
  lemma LoadDecides(t: Table, e: Entry, network: Network, now: int)
    requires |t.buckets| == 160
    ensures |e.id| != 20 || e.addr.port == 0 || e.addr.addr == NoAddr || (network.UDP4? != e.addr.addr.V4?) ==>
              LoadOne(t, e, network, now) == t
    ensures |e.id| == 20 && e.addr.port != 0 && e.addr.addr != NoAddr && network.UDP4? == e.addr.addr.V4? ==>
              LoadOne(t, e, network, now) ==
              Added(t, e.id, e.addr, if e.seconds <= 0 then now else e.seconds * 1_000_000_000).0
  {
    AcceptsByFamily(e.addr);
  }

  function ReloadedAll(nodes: seq<Node>, now: int): (r: seq<Node>)
    ensures |r| == |nodes|
    ensures forall i :: 0 <= i < |nodes| ==> r[i] == Reloaded(nodes[i], now)
  {
    seq(|nodes|, i requires 0 <= i < |nodes| => Reloaded(nodes[i], now))
  }

  lemma SaveConcat(a: seq<Node>, b: seq<Node>)
    ensures SaveAll(a + b) == SaveAll(a) + SaveAll(b)
  {
  }

  ghost predicate AllAccepted(buckets: seq<seq<Node>>, network: Network) {
    forall c, n :: 0 <= c < |buckets| && n in buckets[c] ==> Accepts(network, n.addr)
  }

  /** A test that lets through exactly the nodes of bucket b. */
  ghost predicate Selects(p: Entry -> bool, buckets: seq<seq<Node>>, offset: nat, b: int) {
    forall c, n :: 0 <= c < |buckets| && n in buckets[c] ==> p(Save(n)) == (offset + c == b)
  }

  /** What bucket b of consecutive buckets comes back as. */
  function Expected(buckets: seq<seq<Node>>, offset: nat, b: int, now: int): seq<Node> {
    if offset <= b < offset + |buckets| then ReloadedAll(buckets[b - offset], now) else []
  }

  lemma ExpectedSplits(buckets: seq<seq<Node>>, offset: nat, b: int, now: int)
    requires buckets != []
    ensures Expected(buckets, offset, b, now) ==
            (if offset == b then ReloadedAll(buckets[0], now) else []) + Expected(buckets[1..], offset + 1, b, now)
  {
  }

  lemma {:induction false} PickedOfTable(p: Entry -> bool, buckets: seq<seq<Node>>, offset: nat, b: int, now: int)
    requires Selects(p, buckets, offset, b)
    ensures Picked(SaveAll(Flatten(buckets)), p, now) == Expected(buckets, offset, b, now)
  {
    if buckets != [] {
      var head, tail := buckets[0], buckets[1..];
      SelectsParts(p, buckets, offset, b);
      PickedOfTable(p, tail, offset + 1, b, now);
      PickedAlike(head, p, now, offset == b);
      SavedParts(head, Flatten(tail), p, now);
      ExpectedSplits(buckets, offset, b, now);
    }
  }

  lemma SelectsParts(p: Entry -> bool, buckets: seq<seq<Node>>, offset: nat, b: int)
    requires buckets != [] && Selects(p, buckets, offset, b)
    ensures forall n :: n in buckets[0] ==> p(Save(n)) == (offset == b)
    ensures Selects(p, buckets[1..], offset + 1, b)
  {
    assert forall n :: n in buckets[0] ==> p(Save(n)) == (offset + 0 == b);
    assert forall c, n :: 0 <= c < |buckets[1..]| && n in buckets[1..][c] ==> n in buckets[c + 1];
  }

  lemma SavedParts(a: seq<Node>, b: seq<Node>, p: Entry -> bool, now: int)
    ensures Picked(SaveAll(a + b), p, now) == Picked(SaveAll(a), p, now) + Picked(SaveAll(b), p, now)
  {
    SaveConcat(a, b);
    PickedConcat(SaveAll(a), SaveAll(b), p, now);
  }

  /**
   * Saving a table and replaying it under the same local ID loses nothing:
   * every bucket comes back reversed, times cut to seconds.
   */
  lemma SaveAndReplay(t: Table, network: Network, now: int)
    requires Inv(t)
    requires AllAccepted(t.buckets, network)
    ensures var t' := Replay(Empty(t.local, t.maxNodes), SaveAll(Flatten(t.buckets)), network, now);
            && |t'.buckets| == BUCKETS && Size(t'.buckets) == Size(t.buckets)
            && forall b :: 0 <= b < BUCKETS ==> t'.buckets[b] == Reverse(ReloadedAll(t.buckets[b], now))
  {
    var es := SaveAll(Flatten(t.buckets));
    SavedAreUnique(t);
    ReplayBuckets(t.local, t.maxNodes, es, network, now);
    var t' := Replay(Empty(t.local, t.maxNodes), es, network, now);
    forall b | 0 <= b < BUCKETS
      ensures t'.buckets[b] == Reverse(ReloadedAll(t.buckets[b], now))
    {
      MineOfOwn(t, network, b, now);
    }
    SameSizes(t.buckets, t'.buckets);
  }

  lemma SavedAreUnique(t: Table)
    requires Inv(t)
    ensures UniqueEntries(SaveAll(Flatten(t.buckets)))
    ensures |SaveAll(Flatten(t.buckets))| == Size(t.buckets) <= t.maxNodes
  {
    GoodTable(t);
    FlattenDistinct(t.local, t.buckets, 0);
    SizeIsFlattened(t.buckets);
  }

  lemma OwnBucketSelects(t: Table, network: Network, b: nat)
    requires Inv(t) && AllAccepted(t.buckets, network)
    ensures Selects(InBucket(t.local, network, b), t.buckets, 0, b)
  {
    forall c, n | 0 <= c < BUCKETS && n in t.buckets[c]
      ensures InBucket(t.local, network, b)(Save(n)) == (0 + c == b)
    {
      assert GoodBucket(t.local, c, t.buckets[c]);
    }
  }

  lemma MineOfOwn(t: Table, network: Network, b: nat, now: int)
    requires Inv(t) && b < BUCKETS && AllAccepted(t.buckets, network)
    ensures LastK(Mine(SaveAll(Flatten(t.buckets)), t.local, network, b, now)) == ReloadedAll(t.buckets[b], now)
  {
    OwnBucketSelects(t, network, b);
    PickedOfTable(InBucket(t.local, network, b), t.buckets, 0, b, now);
    assert GoodBucket(t.local, b, t.buckets[b]);
  }

  lemma {:induction false} SameSizes(buckets: seq<seq<Node>>, others: seq<seq<Node>>)
    requires |buckets| == |others|
    requires forall b :: 0 <= b < |buckets| ==> |buckets[b]| == |others[b]|
    ensures Size(buckets) == Size(others)
  {
    if buckets != [] {
      SameSizes(buckets[1..], others[1..]);
    }
  }

  // ------------------------------------------------------------- recency

  /** The entries of a saved list that map to bucket b of a table with this local ID, in list order. */
  function Mapped(es: seq<Entry>, local: ID, network: Network, b: int): seq<Entry> {
    if es == [] then [] else
    Mapped(es[..|es| - 1], local, network, b) +
    if Belongs(es[|es| - 1], local, network, b) then [es[|es| - 1]] else []
  }

  /** Each entry is at least as new as those before it. */
  ghost predicate OldestFirst(es: seq<Entry>, now: int) {
    forall i, j :: 0 <= i < j < |es| ==> Seen(es[i], now) <= Seen(es[j], now)
  }

  lemma {:induction false} MineAreMapped(es: seq<Entry>, local: ID, network: Network, b: int, now: int)
    ensures var mine, mapped := Mine(es, local, network, b, now), Mapped(es, local, network, b);
            |mine| == |mapped| && forall i :: 0 <= i < |mine| ==> mine[i] == Restore(mapped[i], now)
  {
    if es != [] {
      MineAreMapped(es[..|es| - 1], local, network, b, now);
    }
  }

  /**
   * Under any local ID, a reloaded bucket is newest first exactly when the last eight saved
   * entries that map to it were saved oldest first: a question about the file and the new ID.
   */
  lemma ReplayTurnsRecencyAround(local: ID, maxNodes: nat, es: seq<Entry>, network: Network, b: nat, now: int)
    requires UniqueEntries(es) && |es| <= Empty(local, maxNodes).maxNodes && b < BUCKETS
    ensures |Replay(Empty(local, maxNodes), es, network, now).buckets| == BUCKETS
    ensures NewestFirst(Replay(Empty(local, maxNodes), es, network, now).buckets[b])
       <==> OldestFirst(LastK(Mapped(es, local, network, b)), now)
  {
    ReplayBuckets(local, maxNodes, es, network, now);
    var mine, mapped := Mine(es, local, network, b, now), Mapped(es, local, network, b);
    MineAreMapped(es, local, network, b, now);
    LastAreRestored(mine, mapped, now);
    ReversedRecency(LastK(mapped), LastK(mine), now);
  }

  lemma LastAreRestored(nodes: seq<Node>, es: seq<Entry>, now: int)
    requires |nodes| == |es| && forall i :: 0 <= i < |es| ==> nodes[i] == Restore(es[i], now)
    ensures |LastK(nodes)| == |LastK(es)|
    ensures forall i :: 0 <= i < |LastK(es)| ==> LastK(nodes)[i] == Restore(LastK(es)[i], now)
  {
  }

  lemma {:induction false} ReversedRecency(es: seq<Entry>, nodes: seq<Node>, now: int)
    requires |nodes| == |es| && forall i :: 0 <= i < |es| ==> nodes[i] == Restore(es[i], now)
    ensures NewestFirst(Reverse(nodes)) <==> OldestFirst(es, now)
  {
    var r, n := Reverse(nodes), |nodes|;
    ReverseIndex(nodes);
    forall i, j | 0 <= i < j < n
      ensures r[i].lastSeen >= r[j].lastSeen <==> Seen(es[n - 1 - j], now) <= Seen(es[n - 1 - i], now)
    {
      assert r[i] == nodes[n - 1 - i] && r[j] == nodes[n - 1 - j];
    }
    if NewestFirst(r) {
      forall i, j | 0 <= i < j < n
        ensures Seen(es[i], now) <= Seen(es[j], now)
      {
        assert r[n - 1 - j].lastSeen >= r[n - 1 - i].lastSeen;
      }
    }
  }

  /** A restart as the program does it: save, then reload under a newly drawn local ID. */
  lemma RestartRecency(t: Table, drawn: ID, maxNodes: nat, network: Network, b: nat, now: int)
    requires Inv(t) && Size(t.buckets) <= Empty(drawn, maxNodes).maxNodes && b < BUCKETS
    ensures var es := SaveAll(Flatten(t.buckets));
            var t' := Replay(Empty(drawn, maxNodes), es, network, now);
            && |t'.buckets| == BUCKETS
            && (NewestFirst(t'.buckets[b]) <==> OldestFirst(LastK(Mapped(es, drawn, network, b)), now))
  {
    SavedAreUnique(t);
    ReplayTurnsRecencyAround(drawn, maxNodes, SaveAll(Flatten(t.buckets)), network, b, now);
  }

  /** The nodes of a bucket were all last seen in one second. */
  ghost predicate OneSecond(bucket: seq<Node>) {
    forall i, j :: 0 <= i < j < |bucket| ==> bucket[i].lastSeen / SECOND == bucket[j].lastSeen / SECOND
  }

  /**
   * Were the local ID kept, a bucket in newest-first order would keep it through a restart
   * exactly when its nodes were all last seen in one second.
   */
  lemma SameIDReplayRecency(t: Table, network: Network, b: nat, now: int)
    requires Inv(t) && AllAccepted(t.buckets, network) && b < BUCKETS
    requires NewestFirst(t.buckets[b]) && forall n :: n in t.buckets[b] ==> n.lastSeen >= SECOND
    ensures var t' := Replay(Empty(t.local, t.maxNodes), SaveAll(Flatten(t.buckets)), network, now);
            |t'.buckets| == BUCKETS && (NewestFirst(t'.buckets[b]) <==> OneSecond(t.buckets[b]))
  {
    var bucket := t.buckets[b];
    SaveAndReplay(t, network, now);
    ReversedRecency(SaveAll(bucket), ReloadedAll(bucket, now), now);
    forall i, j | 0 <= i < j < |bucket|
      ensures Seen(SaveAll(bucket)[i], now) <= Seen(SaveAll(bucket)[j], now)
         <==> bucket[i].lastSeen / SECOND == bucket[j].lastSeen / SECOND
    {
      assert bucket[i] in bucket && bucket[j] in bucket;
      SavedOrder(bucket[i], bucket[j], now);
    }
  }

  lemma SavedOrder(newer: Node, older: Node, now: int)
    requires newer.lastSeen >= older.lastSeen >= SECOND
    ensures Seen(Save(newer), now) <= Seen(Save(older), now) <==> newer.lastSeen / SECOND == older.lastSeen / SECOND
  {
    var x, y := newer.lastSeen / SECOND, older.lastSeen / SECOND;
    assert x >= y >= 1;
  }

  // ------------------------------------------------------------ two examples

  /** The ID that is zero but for its last byte. */
  function Low(x: byte): (id: ID)
    ensures id[0] == 0 && id[19] == x
  {
    seq(19, _ => 0) + [x]
  }

  /** The ID that is zero but for its first bit. */
  function High(): (id: ID)
    ensures id[0] == 128
  {
    [128] + seq(19, _ => 0)
  }

  lemma {:induction false} XorZero(n: nat)
    ensures Xor(n, 0) == n
  {
    if n != 0 {
      XorZero(n / 2);
    }
  }

  lemma HighBucket(x: byte)
    ensures BucketOf(High(), Low(x)) == 159
  {
    var a: seq<byte>, b: seq<byte> := High(), Low(x);
    assert a[..0] == b[..0];
    FirstDifference(a, b, 0);
    XorZero(128);
    assert BitLen(128) == 1 + BitLen(64) == 2 + BitLen(32);
  }

  function Low4(x: byte, addr: AddrPort, seconds: int): Entry {
    Entry(Low(x), addr, seconds)
  }

  /** Two nodes saved newest first, as every bucket is saved, and reloaded under another ID: their order is lost. */
  lemma RecencyIsLost(addr: AddrPort, network: Network, now: int)
    requires Accepts(network, addr)
    ensures var es := [Low4(2, addr, 2), Low4(3, addr, 1)];
            var t := Replay(Empty(High(), 1000), es, network, now);
            |t.buckets| == BUCKETS && !NewestFirst(t.buckets[159])
  {
    var e, f := Low4(2, addr, 2), Low4(3, addr, 1);
    TwoMapped(e, f, 2, 3, network);
    ReplayTurnsRecencyAround(High(), 1000, [e, f], network, 159, now);
    assert Seen([e, f][0], now) > Seen([e, f][1], now);
  }

  /** Two nodes saved from two buckets, the older one first, come back in order, though their times differ. */
  lemma RecencyIsKept(addr: AddrPort, network: Network, now: int)
    requires Accepts(network, addr)
    ensures var es := [Low4(1, addr, 1), Low4(2, addr, 2)];
            var t := Replay(Empty(High(), 1000), es, network, now);
            && |t.buckets| == BUCKETS && NewestFirst(t.buckets[159]) && |t.buckets[159]| == 2
            && t.buckets[159][0].lastSeen > t.buckets[159][1].lastSeen
  {
    var e, f := Low4(1, addr, 1), Low4(2, addr, 2);
    TwoMapped(e, f, 1, 2, network);
    ReplayTurnsRecencyAround(High(), 1000, [e, f], network, 159, now);
    ReplayBuckets(High(), 1000, [e, f], network, now);
    MineAreMapped([e, f], High(), network, 159, now);
    ReverseIndex(Mine([e, f], High(), network, 159, now));
  }

  lemma MappedSnoc(es: seq<Entry>, e: Entry, local: ID, network: Network, b: int)
    ensures Mapped(es + [e], local, network, b) ==
            Mapped(es, local, network, b) + if Belongs(e, local, network, b) then [e] else []
  {
    assert (es + [e])[..|es|] == es;
  }

  lemma TwoMapped(e: Entry, f: Entry, x: byte, y: byte, network: Network)
    requires e.id == Low(x) && f.id == Low(y) && x != y && Accepts(network, e.addr) && Accepts(network, f.addr)
    ensures UniqueEntries([e, f]) && Mapped([e, f], High(), network, 159) == [e, f]
  {
    HighBucket(x);
    HighBucket(y);
    MappedSnoc([], e, High(), network, 159);
    MappedSnoc([e], f, High(), network, 159);
    assert [] + [e] == [e] && [e] + [f] == [e, f];
    assert e.id[19] != f.id[19];
  }
}
