/**
 * The Kademlia routing table of BEP 5: 160 buckets of at most eight nodes,
 * most recently seen first, never more than maxNodes in all.
 */
module RoutingTables {
  import opened Basics
  import opened NetAddr
  import opened XorMetric

  const K := 8
  const BUCKETS := 160

  datatype Node = Node(id: ID, addr: AddrPort, lastSeen: int)

  /** The abstract table. */
  datatype Table = Table(local: ID, maxNodes: nat, buckets: seq<seq<Node>>)

  function Size(buckets: seq<seq<Node>>): nat {
    if buckets == [] then 0 else |buckets[0]| + Size(buckets[1..])
  }

  function Flatten(buckets: seq<seq<Node>>): seq<Node> {
    if buckets == [] then [] else buckets[0] + Flatten(buckets[1..])
  }

  /** First position of an ID in a bucket, or its length. */
  function IndexOf(bucket: seq<Node>, id: ID): (i: nat)
    ensures i <= |bucket|
    ensures i < |bucket| ==> bucket[i].id == id
    ensures forall j :: 0 <= j < i ==> bucket[j].id != id
  {
    if bucket == [] || bucket[0].id == id then 0 else 1 + IndexOf(bucket[1..], id)
  }

  function Empty(local: ID, maxNodes: nat): Table {
    Table(local, if maxNodes < K then K else maxNodes, seq(BUCKETS, _ => []))
  }

  /** What stays behind the front slot when an ID is put there: everything else, one slot left free. */
  function Rest(bucket: seq<Node>, id: ID): seq<Node> {
    var i := IndexOf(bucket, id);
    if i < |bucket| then bucket[..i] + bucket[i + 1..]
    else if |bucket| >= K then bucket[..K - 1]
    else bucket
  }

  /** Insert or refresh a node. The flag says whether the ID was new and has been stored. */
  function Added(t: Table, id: seq<byte>, addr: AddrPort, seen: int): (r: (Table, bool))
    requires |t.buckets| == BUCKETS
    ensures |r.0.buckets| == BUCKETS
  {
    if |id| != 20 || !addr.Usable() || id == t.local then
      (t, false)
    else
      BucketRange(t.local, id);
      var b := BucketOf(t.local, id);
      var bucket := t.buckets[b];
      var known := IndexOf(bucket, id) < |bucket|;
      if !known && |bucket| < K && Size(t.buckets) >= t.maxNodes then
        (t, false)
      else
        (t.(buckets := t.buckets[b := [Node(id, addr, seen)] + Rest(bucket, id)]), !known)
  }

  /** The nodes of a bucket seen after a given time. */
  function Recent(bucket: seq<Node>, before: int): (kept: seq<Node>)
    ensures |kept| <= |bucket|
  {
    if bucket == [] then [] else
    (if bucket[0].lastSeen > before then [bucket[0]] else []) + Recent(bucket[1..], before)
  }

  function RecentAll(buckets: seq<seq<Node>>, before: int): (kept: seq<seq<Node>>)
    ensures |kept| == |buckets|
    ensures forall b :: 0 <= b < |buckets| ==> kept[b] == Recent(buckets[b], before)
  {
    seq(|buckets|, b requires 0 <= b < |buckets| => Recent(buckets[b], before))
  }

  function Pruned(t: Table, before: int): Table {
    t.(buckets := RecentAll(t.buckets, before))
  }

  // ------------------------------------------------------------- invariants

  ghost predicate UniqueIDs(nodes: seq<Node>) {
    forall i, j :: 0 <= i < j < |nodes| ==> nodes[i].id != nodes[j].id
  }

  /** What one bucket satisfies: bounded, unique, correctly placed, reachable addresses. */
  ghost predicate GoodBucket(local: ID, b: int, bucket: seq<Node>) {
    && |bucket| <= K
    && UniqueIDs(bucket)
    && forall n :: n in bucket ==> BucketOf(local, n.id) == b && n.addr.Usable()
  }

  ghost predicate Inv(t: Table) {
    && |t.buckets| == BUCKETS
    && t.maxNodes >= K
    && Size(t.buckets) <= t.maxNodes
    && forall b :: 0 <= b < BUCKETS ==> GoodBucket(t.local, b, t.buckets[b])
  }

  ghost predicate NewestFirst(bucket: seq<Node>) {
    forall i, j :: 0 <= i < j < |bucket| ==> bucket[i].lastSeen >= bucket[j].lastSeen
  }

  /** Every bucket is sorted newest first and nothing was seen after `now`. */
  ghost predicate Recency(t: Table, now: int) {
    forall b :: 0 <= b < |t.buckets| ==>
                  NewestFirst(t.buckets[b]) && forall n :: n in t.buckets[b] ==> n.lastSeen <= now
  }

  lemma {:induction false} SizeOfUpdate(buckets: seq<seq<Node>>, b: nat, bucket: seq<Node>)
    requires b < |buckets|
    ensures Size(buckets[b := bucket]) == Size(buckets) - |buckets[b]| + |bucket|
  {
    if b > 0 {
      SizeOfUpdate(buckets[1..], b - 1, bucket);
      assert buckets[b := bucket][1..] == buckets[1..][b - 1 := bucket];
    } else {
      assert buckets[b := bucket][1..] == buckets[1..];
    }
  }

  lemma {:induction false} SizeShrinks(buckets: seq<seq<Node>>, fewer: seq<seq<Node>>)
    requires |buckets| == |fewer|
    requires forall b :: 0 <= b < |buckets| ==> |fewer[b]| <= |buckets[b]|
    ensures Size(fewer) <= Size(buckets)
  {
    if buckets != [] {
      SizeShrinks(buckets[1..], fewer[1..]);
    }
  }

  lemma {:induction false} SizeIsFlattened(buckets: seq<seq<Node>>)
    ensures |Flatten(buckets)| == Size(buckets)
  {
    if buckets != [] {
      SizeIsFlattened(buckets[1..]);
    }
  }

  /** Pruning a bucket keeps exactly the nodes seen after the given time, in order and unique. */
  lemma {:induction false} RecentKeeps(bucket: seq<Node>, before: int)
    ensures forall n :: n in Recent(bucket, before) <==> n in bucket && n.lastSeen > before
    ensures UniqueIDs(bucket) ==> UniqueIDs(Recent(bucket, before))
    ensures NewestFirst(bucket) ==> NewestFirst(Recent(bucket, before))
  {
    if bucket != [] {
      var tail := bucket[1..];
      RecentKeeps(tail, before);
      if UniqueIDs(bucket) {
        assert UniqueIDs(tail);
        ConsUnique(bucket[0], Recent(tail, before));
      }
      if NewestFirst(bucket) {
        assert NewestFirst(tail);
        ConsNewest(bucket[0], Recent(tail, before));
      }
    }
  }

  lemma ConsUnique(node: Node, rest: seq<Node>)
    requires UniqueIDs(rest) && forall n :: n in rest ==> n.id != node.id
    ensures UniqueIDs([node] + rest)
  {
  }

  lemma ConsNewest(node: Node, rest: seq<Node>)
    requires NewestFirst(rest) && forall n :: n in rest ==> n.lastSeen <= node.lastSeen
    ensures NewestFirst([node] + rest)
  {
  }

  /** Position in the bucket of the j-th survivor when position i is taken out. */
  function Skip(i: nat, j: nat): nat {
    if j < i then j else j + 1
  }

  lemma RestAt(bucket: seq<Node>, id: ID)
    requires |bucket| <= K
    ensures |Rest(bucket, id)| < K
    ensures forall j :: 0 <= j < |Rest(bucket, id)| ==>
                          Skip(IndexOf(bucket, id), j) < |bucket| &&
                          Rest(bucket, id)[j] == bucket[Skip(IndexOf(bucket, id), j)]
  {
  }

  /** The rest of a bucket loses the ID and keeps order, uniqueness and membership. */
  lemma RestFacts(bucket: seq<Node>, id: ID)
    requires |bucket| <= K && UniqueIDs(bucket)
    ensures |Rest(bucket, id)| < K
    ensures UniqueIDs(Rest(bucket, id))
    ensures forall n :: n in Rest(bucket, id) ==> n in bucket && n.id != id
  {
    RestAt(bucket, id);
    var i, rest := IndexOf(bucket, id), Rest(bucket, id);
    forall j | 0 <= j < |rest|
      ensures rest[j] in bucket && rest[j].id != id
    {
      var k := Skip(i, j);
      assert k < i || (i < |bucket| && bucket[i].id == id && k > i);
    }
  }

  lemma RestNewest(bucket: seq<Node>, id: ID)
    requires |bucket| <= K && NewestFirst(bucket)
    ensures NewestFirst(Rest(bucket, id))
  {
    RestAt(bucket, id);
  }

  lemma AddKeepsInv(t: Table, id: seq<byte>, addr: AddrPort, seen: int)
    requires Inv(t)
    ensures Inv(Added(t, id, addr, seen).0)
  {
    if |id| == 20 && addr.Usable() && id != t.local {
      BucketRange(t.local, id);
      var b := BucketOf(t.local, id);
      var node, bucket := Node(id, addr, seen), t.buckets[b];
      assert GoodBucket(t.local, b, bucket);
      RestFacts(bucket, id);
      var bucket' := [node] + Rest(bucket, id);
      ConsUnique(node, Rest(bucket, id));
      assert GoodBucket(t.local, b, bucket');
      SizeOfUpdate(t.buckets, b, bucket');
    }
  }

  lemma PruneKeepsInv(t: Table, before: int)
    requires Inv(t)
    ensures Inv(Pruned(t, before))
  {
    var t' := Pruned(t, before);
    SizeShrinks(t.buckets, t'.buckets);
    forall b | 0 <= b < BUCKETS
      ensures GoodBucket(t.local, b, t'.buckets[b])
    {
      assert GoodBucket(t.local, b, t.buckets[b]);
      RecentKeeps(t.buckets[b], before);
    }
  }

  // ------------------------------------------------ what each operation does

  /** An add is refused: bad ID or address, the local ID, or a new ID for a bucket with room in a table without. */
  ghost predicate Refused(t: Table, id: seq<byte>, addr: AddrPort)
    requires |t.buckets| == 160
  {
    || |id| != 20 || addr.addr == NoAddr || addr.port == 0 || id == t.local
    || (0 <= BucketOf(t.local, id) < 160 && |t.buckets[BucketOf(t.local, id)]| < 8
        && (forall n :: n in t.buckets[BucketOf(t.local, id)] ==> n.id != id)
        && Size(t.buckets) >= t.maxNodes)
  }

  /**
   * An add that is not refused puts the node in front of its bucket, where its ID occurs no more
   * otherwise, and drops nothing else, but for the last of a full bucket when the ID is new. All
   * other buckets stay as they are. The flag says that the ID was new and has been stored.
   */
  lemma AddDecides(t: Table, id: seq<byte>, addr: AddrPort, seen: int)
    requires Inv(t)
    ensures Refused(t, id, addr) ==> Added(t, id, addr, seen) == (t, false)
    ensures !Refused(t, id, addr) ==>
              var (t', stored), b, node := Added(t, id, addr, seen), BucketOf(t.local, id), Node(id, addr, seen);
              && 0 <= b < 160 && t'.local == t.local && t'.maxNodes == t.maxNodes
              && (forall c :: 0 <= c < 160 && c != b ==> t'.buckets[c] == t.buckets[c])
              && (stored <==> forall n :: n in t.buckets[b] ==> n.id != id)
              && t'.buckets[b] != [] && t'.buckets[b][0] == node
              && (stored && |t.buckets[b]| == 8 ==> t'.buckets[b] == [node] + t.buckets[b][..7])
              && (stored && |t.buckets[b]| < 8 ==> t'.buckets[b] == [node] + t.buckets[b])
              && (!stored ==>
                    exists i :: 0 <= i < |t.buckets[b]| && t.buckets[b][i].id == id
                                && t'.buckets[b] == [node] + t.buckets[b][..i] + t.buckets[b][i + 1..])
  {
    if |id| == 20 && addr.Usable() && id != t.local {
      BucketRange(t.local, id);
      var bucket := t.buckets[BucketOf(t.local, id)];
      assert GoodBucket(t.local, BucketOf(t.local, id), bucket);
      FrontDecides(bucket, Node(id, addr, seen));
    }
  }

  /** A bucket with a node in front, where the node's ID was new or where it was not. */
  lemma FrontDecides(bucket: seq<Node>, node: Node)
    requires |bucket| <= K
    ensures var i, r := IndexOf(bucket, node.id), [node] + Rest(bucket, node.id);
            && (i == |bucket| <==> forall n :: n in bucket ==> n.id != node.id)
            && (i < |bucket| ==> bucket[i].id == node.id && r == [node] + bucket[..i] + bucket[i + 1..])
            && (i == |bucket| ==> r == [node] + if |bucket| == 8 then bucket[..7] else bucket)
  {
    var i := IndexOf(bucket, node.id);
    if i < |bucket| {
      assert bucket[i] in bucket;
      ConcatAssoc([node], bucket[..i], bucket[i + 1..]);
    }
  }

  lemma {:induction false} RecentIsSublist(bucket: seq<Node>, before: int)
    ensures IsSublist(Recent(bucket, before), bucket)
  {
    if bucket != [] {
      RecentIsSublist(bucket[1..], before);
      if bucket[0].lastSeen > before {
        assert Recent(bucket, before)[1..] == Recent(bucket[1..], before);
      } else {
        assert Recent(bucket, before) == Recent(bucket[1..], before);
      }
    }
  }

  /**
   * Pruning takes out of every bucket exactly the nodes not seen after the given time; what
   * stays keeps its order, and nothing else about the table changes.
   */
  lemma PruneDecides(t: Table, before: int, b: int, n: Node)
    requires |t.buckets| == 160 && 0 <= b < 160
    ensures var t' := Pruned(t, before);
            && |t'.buckets| == 160 && t'.local == t.local && t'.maxNodes == t.maxNodes
            && (n in t'.buckets[b] <==> n in t.buckets[b] && n.lastSeen > before)
            && IsSublist(t'.buckets[b], t.buckets[b])
            && Size(t'.buckets) == Size(t.buckets) - StaleAll(t.buckets, before)
  {
    RecentKeeps(t.buckets[b], before);
    RecentIsSublist(t.buckets[b], before);
    PrunedSize(t.buckets, before);
  }

  /** A new table is empty and has room for at least eight nodes. */
  lemma EmptyDecides(local: ID, maxNodes: nat, b: int)
    requires 0 <= b < 160
    ensures var t := Empty(local, maxNodes);
            && |t.buckets| == 160 && t.buckets[b] == [] && t.local == local
            && t.maxNodes == (if maxNodes < 8 then 8 else maxNodes)
  {
  }

  /** The nodes of a bucket that are not seen after a time. */
  function Stale(bucket: seq<Node>, before: int): nat {
    if bucket == [] then 0 else (if bucket[0].lastSeen <= before then 1 else 0) + Stale(bucket[1..], before)
  }

  function StaleAll(buckets: seq<seq<Node>>, before: int): nat {
    if buckets == [] then 0 else Stale(buckets[0], before) + StaleAll(buckets[1..], before)
  }

  lemma {:induction false} RecentAndStale(bucket: seq<Node>, before: int)
    ensures |Recent(bucket, before)| + Stale(bucket, before) == |bucket|
  {
    if bucket != [] {
      RecentAndStale(bucket[1..], before);
    }
  }

  /** The size falls by the number of nodes taken out. */
  lemma {:induction false} PrunedSize(buckets: seq<seq<Node>>, before: int)
    ensures Size(RecentAll(buckets, before)) == Size(buckets) - StaleAll(buckets, before)
  {
    if buckets != [] {
      PrunedSize(buckets[1..], before);
      RecentAndStale(buckets[0], before);
      assert RecentAll(buckets, before)[1..] == RecentAll(buckets[1..], before);
    }
  }

  // ------------------------------------------------------------------- runs

  datatype Op = OpAdd(id: seq<byte>, addr: AddrPort, seen: int) | OpPrune(before: int)

  function Apply(t: Table, op: Op): (t': Table)
    requires |t.buckets| == BUCKETS
    ensures |t'.buckets| == BUCKETS
  {
    match op
    case OpAdd(id, addr, seen) => Added(t, id, addr, seen).0
    case OpPrune(before) => Pruned(t, before)
  }

  function Run(t: Table, ops: seq<Op>): (t': Table)
    requires |t.buckets| == BUCKETS
    ensures |t'.buckets| == BUCKETS
  {
    if ops == [] then t else Apply(Run(t, ops[..|ops| - 1]), ops[|ops| - 1])
  }

  lemma {:induction false} EmptySize(n: nat)
    ensures Size(seq(n, _ => [])) == 0
  {
    if n > 0 {
      EmptySize(n - 1);
      assert seq<seq<Node>>(n, _ => [])[1..] == seq<seq<Node>>(n - 1, _ => []);
    }
  }

  /** Every table reachable from an empty one satisfies the invariant. */
  lemma {:induction false} RunKeepsInv(local: ID, maxNodes: nat, ops: seq<Op>)
    ensures Inv(Run(Empty(local, maxNodes), ops))
  {
    var t := Empty(local, maxNodes);
    EmptySize(BUCKETS);
    if ops != [] {
      var n := |ops| - 1;
      RunKeepsInv(local, maxNodes, ops[..n]);
      var before := Run(t, ops[..n]);
      match ops[n] {
        case OpAdd(id, addr, seen) => AddKeepsInv(before, id, addr, seen);
        case OpPrune(cut) => PruneKeepsInv(before, cut);
      }
    }
  }

  lemma {:induction false} FlattenMembers(buckets: seq<seq<Node>>, b: nat, n: Node)
    requires b < |buckets| && n in buckets[b]
    ensures n in Flatten(buckets)
  {
    if b > 0 {
      FlattenMembers(buckets[1..], b - 1, n);
    }
  }

  /** Consecutive buckets, the first of them with a given number. */
  ghost predicate GoodFrom(local: ID, buckets: seq<seq<Node>>, offset: nat) {
    forall b :: 0 <= b < |buckets| ==> GoodBucket(local, offset + b, buckets[b])
  }

  lemma GoodTail(local: ID, buckets: seq<seq<Node>>, offset: nat)
    requires buckets != [] && GoodFrom(local, buckets, offset)
    ensures GoodBucket(local, offset, buckets[0])
    ensures GoodFrom(local, buckets[1..], offset + 1)
  {
    assert GoodBucket(local, offset + 0, buckets[0]);
    forall b | 0 <= b < |buckets[1..]|
      ensures GoodBucket(local, offset + 1 + b, buckets[1..][b])
    {
      assert GoodBucket(local, offset + (b + 1), buckets[b + 1]);
    }
  }

  lemma GoodTable(t: Table)
    requires Inv(t)
    ensures GoodFrom(t.local, t.buckets, 0)
  {
    assert forall b :: 0 <= b < BUCKETS ==> GoodBucket(t.local, 0 + b, t.buckets[b]);
  }

  /** Where a node of the whole table is stored. */
  lemma {:induction false} FlattenPlaced(local: ID, buckets: seq<seq<Node>>, offset: nat, n: Node)
    requires GoodFrom(local, buckets, offset)
    requires n in Flatten(buckets)
    ensures offset <= BucketOf(local, n.id) < offset + |buckets|
    ensures n in buckets[BucketOf(local, n.id) - offset]
  {
    GoodTail(local, buckets, offset);
    if n !in buckets[0] {
      FlattenPlaced(local, buckets[1..], offset + 1, n);
    }
  }

  lemma {:induction false} FlattenDistinct(local: ID, buckets: seq<seq<Node>>, offset: nat)
    requires GoodFrom(local, buckets, offset)
    ensures UniqueIDs(Flatten(buckets))
  {
    if buckets != [] {
      GoodTail(local, buckets, offset);
      FlattenDistinct(local, buckets[1..], offset + 1);
      forall m, n | m in buckets[0] && n in Flatten(buckets[1..])
        ensures m.id != n.id
      {
        FlattenPlaced(local, buckets[1..], offset + 1, n);
      }
      JoinUnique(buckets[0], Flatten(buckets[1..]));
    }
  }

  lemma JoinUnique(a: seq<Node>, b: seq<Node>)
    requires UniqueIDs(a) && UniqueIDs(b) && forall m, n :: m in a && n in b ==> m.id != n.id
    ensures UniqueIDs(a + b)
  {
    var c := a + b;
    forall i, j | 0 <= i < j < |c|
      ensures c[i].id != c[j].id
    {
      assert i < |a| ==> c[i] in a;
      assert j >= |a| ==> c[j] in b;
    }
  }

  /**
   * Read off the invariant: IDs are unique across the whole table, every stored node sits in
   * the bucket of its distance, and the local ID is never stored.
   */
  lemma TableIsSound(t: Table, n: Node)
    requires Inv(t)
    ensures UniqueIDs(Flatten(t.buckets))
    ensures n in Flatten(t.buckets) <==> exists b :: 0 <= b < BUCKETS && n in t.buckets[b]
    ensures n in Flatten(t.buckets) ==>
              && n.id != t.local
              && 0 <= BucketOf(t.local, n.id) < BUCKETS
              && n in t.buckets[BucketOf(t.local, n.id)]
  {
    GoodTable(t);
    FlattenDistinct(t.local, t.buckets, 0);
    if n in Flatten(t.buckets) {
      FlattenPlaced(t.local, t.buckets, 0, n);
      BucketRange(t.local, n.id);
    }
    if b :| 0 <= b < BUCKETS && n in t.buckets[b] {
      FlattenMembers(t.buckets, b, n);
    }
  }

  // ---------------------------------------------------------------- recency

  /** An Add whose clock has not gone back keeps every bucket sorted newest first. */
  lemma AddKeepsRecency(t: Table, id: seq<byte>, addr: AddrPort, seen: int, now: int)
    requires Inv(t) && Recency(t, now) && now <= seen
    ensures Recency(Added(t, id, addr, seen).0, seen)
  {
    if |id| == 20 && addr.Usable() && id != t.local {
      BucketRange(t.local, id);
      var b := BucketOf(t.local, id);
      assert GoodBucket(t.local, b, t.buckets[b]);
      RestFacts(t.buckets[b], id);
      RestNewest(t.buckets[b], id);
      ConsNewest(Node(id, addr, seen), Rest(t.buckets[b], id));
    }
  }

  lemma PruneKeepsRecency(t: Table, before: int, now: int)
    requires Inv(t) && Recency(t, now)
    ensures Recency(Pruned(t, before), now)
  {
    forall b | 0 <= b < BUCKETS
      ensures NewestFirst(Pruned(t, before).buckets[b])
      ensures forall n :: n in Pruned(t, before).buckets[b] ==> n.lastSeen <= now
    {
      assert GoodBucket(t.local, b, t.buckets[b]);
      RecentKeeps(t.buckets[b], before);
    }
  }

  /** Latest time any Add of a run carries. */
  function Clock(start: int, ops: seq<Op>): int {
    if ops == [] then start else
    match ops[|ops| - 1]
    case OpAdd(_, _, seen) => seen
    case OpPrune(_) => Clock(start, ops[..|ops| - 1])
  }

  ghost predicate Monotone(start: int, ops: seq<Op>) {
    ops == [] ||
    (&& Monotone(start, ops[..|ops| - 1])
     && (ops[|ops| - 1].OpAdd? ==> Clock(start, ops[..|ops| - 1]) <= ops[|ops| - 1].seen))
  }

  /** With a clock that never goes back, every reachable bucket is sorted newest first. */
  lemma {:induction false} RunKeepsRecency(local: ID, maxNodes: nat, ops: seq<Op>, start: int)
    requires Monotone(start, ops)
    ensures Recency(Run(Empty(local, maxNodes), ops), Clock(start, ops))
  {
    if ops != [] {
      var n := |ops| - 1;
      RunKeepsRecency(local, maxNodes, ops[..n], start);
      RunKeepsInv(local, maxNodes, ops[..n]);
      var before := Run(Empty(local, maxNodes), ops[..n]);
      match ops[n] {
        case OpAdd(id, addr, seen) => AddKeepsRecency(before, id, addr, seen, Clock(start, ops[..n]));
        case OpPrune(cut) => PruneKeepsRecency(before, cut, Clock(start, ops[..n]));
      }
    }
  }

  /** A new node entering a full bucket drops exactly one node, and that one is least recently seen. */
  lemma EvictionDropsOldest(t: Table, id: ID, addr: AddrPort, seen: int, now: int)
    requires Inv(t) && Recency(t, now) && id != t.local && addr.Usable()
    requires 0 <= BucketOf(t.local, id) < BUCKETS
    requires |t.buckets[BucketOf(t.local, id)]| == K
    requires forall n :: n in t.buckets[BucketOf(t.local, id)] ==> n.id != id
    ensures Added(t, id, addr, seen).1
    ensures var bucket := t.buckets[BucketOf(t.local, id)];
            var bucket' := Added(t, id, addr, seen).0.buckets[BucketOf(t.local, id)];
            && multiset(bucket') == multiset(bucket) - multiset{bucket[K - 1]} + multiset{Node(id, addr, seen)}
            && forall n :: n in bucket ==> bucket[K - 1].lastSeen <= n.lastSeen
  {
    var b := BucketOf(t.local, id);
    LastReplaced(t, id, addr, seen);
    LastOut(t.buckets[b], Node(id, addr, seen));
    assert NewestFirst(t.buckets[b]);
  }

  lemma LastReplaced(t: Table, id: ID, addr: AddrPort, seen: int)
    requires |t.buckets| == BUCKETS && id != t.local && addr.Usable()
    requires 0 <= BucketOf(t.local, id) < BUCKETS
    requires |t.buckets[BucketOf(t.local, id)]| == K
    requires forall n :: n in t.buckets[BucketOf(t.local, id)] ==> n.id != id
    ensures Added(t, id, addr, seen).1
    ensures Added(t, id, addr, seen).0.buckets[BucketOf(t.local, id)]
         == [Node(id, addr, seen)] + t.buckets[BucketOf(t.local, id)][..K - 1]
  {
    NoIndex(t.buckets[BucketOf(t.local, id)], id);
  }

  lemma {:induction false} NoIndex(bucket: seq<Node>, id: ID)
    requires forall n :: n in bucket ==> n.id != id
    ensures IndexOf(bucket, id) == |bucket|
  {
    if bucket != [] {
      NoIndex(bucket[1..], id);
    }
  }

  lemma LastOut(bucket: seq<Node>, node: Node)
    requires |bucket| == K
    ensures multiset([node] + bucket[..K - 1]) == multiset(bucket) - multiset{bucket[K - 1]} + multiset{node}
  {
    SnocMultiset(bucket[..K - 1], bucket[K - 1]);
    assert bucket == bucket[..K - 1] + [bucket[K - 1]];
  }

  // ---------------------------------------------------------- nearest nodes

  /** Distance to a target, as a function of an ID. */
  function DistanceTo(target: ID): ID -> nat {
    (id: ID) => Distance(id, target)
  }

  /** The limit nearest nodes of a collection under a distance, strictly nearest first. */
  ghost predicate IsNearest(r: seq<Node>, nodes: seq<Node>, d: ID -> nat, limit: nat) {
    && |r| == (if |nodes| <= limit then |nodes| else limit)
    && (forall n :: n in r ==> n in nodes)
    && Nearing(r, d)
    && forall m, n :: m in r && n in nodes && n !in r ==> d(m.id) < d(n.id)
  }

  ghost predicate Nearing(r: seq<Node>, d: ID -> nat) {
    forall i, j :: 0 <= i < j < |r| ==> d(r[i].id) < d(r[j].id)
  }

  /** At most one list satisfies IsNearest, whatever algorithm sorts it. */
  lemma NearestIsUnique(r: seq<Node>, r': seq<Node>, nodes: seq<Node>, target: ID, limit: nat)
    requires IsNearest(r, nodes, DistanceTo(target), limit) && IsNearest(r', nodes, DistanceTo(target), limit)
    requires UniqueIDs(nodes)
    ensures r == r'
  {
    var d := DistanceTo(target);
    forall m, n | m in nodes && n in nodes && d(m.id) == d(n.id)
      ensures m == n
    {
      SameDistanceSameID(m.id, n.id, target);
      var i :| 0 <= i < |nodes| && nodes[i] == m;
      var j :| 0 <= j < |nodes| && nodes[j] == n;
      assert i == j;
    }
    forall k | 0 <= k < |r|
      ensures r[k] == r'[k]
    {
      SameUpTo(r, r', nodes, d, limit, k);
    }
  }

  /** Two nearest lists agree place by place when the distance tells nodes apart. */
  lemma {:induction false} SameUpTo(r: seq<Node>, r': seq<Node>, nodes: seq<Node>, d: ID -> nat, limit: nat, k: nat)
    requires IsNearest(r, nodes, d, limit) && IsNearest(r', nodes, d, limit)
    requires forall m, n :: m in nodes && n in nodes && d(m.id) == d(n.id) ==> m == n
    requires k < |r|
    ensures r[k] == r'[k]
    decreases k
  {
    forall j | 0 <= j < k
      ensures r[j] == r'[j]
    {
      SameUpTo(r, r', nodes, d, limit, j);
    }
    NotNearer(r, r', k, nodes, d, limit);
    NotNearer(r', r, k, nodes, d, limit);
    assert r[k] in r && r'[k] in r';
  }

  /** Of two nearest lists that agree before k, neither continues with a nearer node than the other. */
  lemma NotNearer(r: seq<Node>, r': seq<Node>, k: nat, nodes: seq<Node>, d: ID -> nat, limit: nat)
    requires IsNearest(r, nodes, d, limit) && IsNearest(r', nodes, d, limit)
    requires k < |r| == |r'| && forall j :: 0 <= j < k ==> r[j] == r'[j]
    ensures d(r[k].id) >= d(r'[k].id)
  {
    assert r[k] in r && r'[k] in r';
    if r[k] in r' {
      var j :| 0 <= j < |r'| && r'[j] == r[k];
      assert j >= k;
    }
  }

  /** Nodes of the target's own bucket fill the front of the list, as many as fit. */
  lemma ClosestStartsWithOwnBucket(t: Table, target: ID, r: seq<Node>, limit: nat, i: nat)
    requires Inv(t) && target != t.local
    requires IsNearest(r, Flatten(t.buckets), DistanceTo(target), limit)
    requires 0 <= BucketOf(t.local, target) < BUCKETS
    requires i < |r| && i < |t.buckets[BucketOf(t.local, target)]|
    ensures r[i] in t.buckets[BucketOf(t.local, target)]
  {
    var b := BucketOf(t.local, target);
    var own := t.buckets[b];
    TableIsSound(t, r[i]);
    if r[i] !in own {
      assert GoodBucket(t.local, b, own);
      assert r[i] in Flatten(t.buckets);
      forall n | n in own
        ensures n in r[..i]
      {
        OwnBucketIsNearer(t.local, target, n.id, r[i].id);
        FlattenMembers(t.buckets, b, n);
        NearerIsEarlier(r, Flatten(t.buckets), DistanceTo(target), limit, i, n);
      }
      Pigeonhole(own, r[..i]);
    }
  }

  /** A node nearer than one on the list is on the list before it. */
  lemma NearerIsEarlier(r: seq<Node>, nodes: seq<Node>, d: ID -> nat, limit: nat, i: nat, n: Node)
    requires IsNearest(r, nodes, d, limit) && i < |r| && n in nodes && d(n.id) < d(r[i].id)
    ensures n in r[..i]
  {
    assert n in r;
    var j :| 0 <= j < |r| && r[j] == n;
    assert j < i;
  }

  /** Nodes with distinct IDs that all occur in another list are no more than that list has places. */
  lemma {:induction false} Pigeonhole(nodes: seq<Node>, places: seq<Node>)
    requires UniqueIDs(nodes)
    requires forall n :: n in nodes ==> n in places
    ensures |nodes| <= |places|
  {
    if nodes != [] {
      var x, tail := nodes[0], nodes[1..];
      assert x in places;
      var k :| 0 <= k < |places| && places[k] == x;
      var fewer := places[..k] + places[k + 1..];
      forall n | n in tail
        ensures n in fewer
      {
        assert n in places;
        var j :| 0 <= j < |places| && places[j] == n;
        assert j != k;
        assert fewer[if j < k then j else j - 1] == n;
      }
      Pigeonhole(tail, fewer);
    }
  }

  /** An add past its checks, place by place: refused, or one bucket shifted up to a place behind a new front. */
  lemma StoreIs(t: Table, b: nat, node: Node)
    requires Inv(t) && b < BUCKETS && BucketOf(t.local, node.id) == b && node.addr.Usable()
    ensures var bucket, r := t.buckets[b], Added(t, node.id, node.addr, node.lastSeen);
            var i, n, bucket' := IndexOf(bucket, node.id), |bucket|, [node] + Rest(bucket, node.id);
            && Inv(r.0) && i <= n <= K && |bucket'| == (if i < n then n else if n < K then n + 1 else K)
            && (forall j :: 0 < j < |bucket'| ==> bucket'[j] == bucket[if i < n && j > i then j else j - 1])
            && if i == n && n < K && Size(t.buckets) >= t.maxNodes then r == (t, false)
               else
                 && r == (t.(buckets := t.buckets[b := bucket']), i == n)
                 && Size(r.0.buckets) == Size(t.buckets) + if i == n && n < K then 1 else 0
  {
    AddKeepsInv(t, node.id, node.addr, node.lastSeen);
    BucketRange(t.local, node.id);
    assert |t.buckets[b]| <= K by {
      assert GoodBucket(t.local, b, t.buckets[b]);
    }
    FrontShape(t.buckets[b], node);
    SizeOfUpdate(t.buckets, b, [node] + Rest(t.buckets[b], node.id));
  }

  /** A bucket with a node put in front. */
  lemma FrontShape(bucket: seq<Node>, node: Node)
    requires |bucket| <= K
    ensures var i, n, bucket' := IndexOf(bucket, node.id), |bucket|, [node] + Rest(bucket, node.id);
            && i <= n && |bucket'| == (if i < n then n else if n < K then n + 1 else K)
            && forall j :: 0 < j < |bucket'| ==> bucket'[j] == bucket[if i < n && j > i then j else j - 1]
  {
    RestAt(bucket, node.id);
  }

  // -------------------------------------------------------------- the class

  /**
   * The table as it is stored: bucket b is the window slots[8b .. 8b + lens[b]],
   * and all updates shift, overwrite or compact that window in place.
   */
  class RoutingTable {
    const local: ID
    const maxNodes: nat
    const slots: array<Node>
    const lens: array<nat>
    var size: int
    ghost var model: Table

    ghost predicate Valid()
      reads this, slots, lens
    {
      && slots.Length == BUCKETS * K && lens.Length == BUCKETS
      && Inv(model) && model.local == local && model.maxNodes == maxNodes
      && size == Size(model.buckets)
      && Stores(model.buckets)
    }

    /** Window b holds exactly this bucket. */
    ghost predicate Holds(b: nat, bucket: seq<Node>)
      requires b < BUCKETS && slots.Length == BUCKETS * K && lens.Length == BUCKETS
      reads slots, lens
    {
      lens[b] == |bucket| <= K && forall j :: 0 <= j < |bucket| ==> slots[K * b + j] == bucket[j]
    }

    ghost predicate Stores(buckets: seq<seq<Node>>)
      requires |buckets| == BUCKETS && slots.Length == BUCKETS * K && lens.Length == BUCKETS
      reads slots, lens
    {
      forall b :: 0 <= b < BUCKETS ==> Holds(b, buckets[b])
    }

    constructor (localID: seq<byte>, maxNodes: nat)
      ensures Valid() && fresh(slots) && fresh(lens)
      ensures model == Empty(Fit(localID, 20), maxNodes)
    {
      local := Fit(localID, 20);
      this.maxNodes := if maxNodes < K then K else maxNodes;
      var nowhere := Node(Fit([], 20), AddrPort(NoAddr, 0), 0);
      slots := new Node[BUCKETS * K](_ => nowhere);
      lens := new nat[BUCKETS](_ => 0);
      size := 0;
      model := Empty(Fit(localID, 20), maxNodes);
      new;
      EmptySize(BUCKETS);
    }

    /** copy(window[1:n+1], window[0:n]): the two ranges overlap, so the last element moves first. */
    method ShiftRight(base: nat, n: nat)
      requires base + n < slots.Length
      modifies slots
      ensures forall j :: base < j <= base + n ==> slots[j] == old(slots[j - 1])
      ensures forall j :: 0 <= j < slots.Length && !(base < j <= base + n) ==> slots[j] == old(slots[j])
    {
      var k := n;
      while k > 0
        invariant 0 <= k <= n
        invariant forall j :: base + k < j <= base + n ==> slots[j] == old(slots[j - 1])
        invariant forall j :: 0 <= j < slots.Length && !(base + k < j <= base + n) ==> slots[j] == old(slots[j])
      {
        slots[base + k] := slots[base + k - 1];
        k := k - 1;
      }
    }

    /** Shift the first i nodes of a window right by one, write the front slot, set the length. */
    method Front(b: nat, node: Node, i: nat, newLen: nat, ghost buckets: seq<seq<Node>>, ghost bucket': seq<Node>)
      requires b < BUCKETS == |buckets| && slots.Length == BUCKETS * K && lens.Length == BUCKETS
      requires Stores(buckets) && i <= |buckets[b]| && i < newLen == |bucket'| <= K
      requires newLen == i + 1 || newLen == |buckets[b]|
      requires bucket'[0] == node
      requires forall j :: 0 < j < newLen ==> bucket'[j] == buckets[b][if j <= i then j - 1 else j]
      modifies slots, lens
      ensures Stores(buckets[b := bucket'])
    {
      var base := K * b;
      assert Holds(b, buckets[b]);
      ShiftRight(base, i);
      slots[base] := node;
      lens[b] := newLen;
      ghost var bucket := buckets[b];
      forall j | 0 <= j < newLen
        ensures slots[base + j] == bucket'[j]
      {
        if 0 < j {
          assert old(slots[base + if j <= i then j - 1 else j]) == bucket[if j <= i then j - 1 else j];
        }
      }
      assert Holds(b, bucket');
      forall c | 0 <= c < BUCKETS && c != b
        ensures Holds(c, buckets[c])
      {
        assert old(Holds(c, buckets[c]));
      }
    }

    /** First position of an ID in a window, or its length. */
    method Find(b: nat, id: ID, ghost bucket: seq<Node>) returns (i: nat)
      requires b < BUCKETS && slots.Length == BUCKETS * K && lens.Length == BUCKETS && Holds(b, bucket)
      ensures i == IndexOf(bucket, id)
    {
      i := 0;
      while i < lens[b] && slots[K * b + i].id != id
        invariant 0 <= i <= lens[b]
        invariant forall j :: 0 <= j < i ==> bucket[j].id != id
      {
        assert slots[K * b + i] == bucket[i];
        i := i + 1;
      }
      assert i < lens[b] ==> slots[K * b + i] == bucket[i];
      IndexIs(bucket, id, i);
    }

    method Add(id: seq<byte>, addr: AddrPort, seen: int) returns (added: bool)
      requires Valid()
      modifies this`size, this`model, slots, lens
      ensures Valid()
      ensures (model, added) == Added(old(model), id, addr, seen)
    {
      if |id| != 20 || !addr.Usable() {
        return false;
      }
      BucketRange(local, id);
      var b := XorBucketIndex(local, id);
      if b < 0 {
        return false;
      }
      added := Store(b, Node(id, addr, seen));
    }

    /** Add past its checks: refresh in place, replace the last of a full bucket, or grow by one. */
    method Store(b: nat, node: Node) returns (added: bool)
      requires Valid() && b < BUCKETS && BucketOf(local, node.id) == b && node.addr.Usable()
      modifies this`size, this`model, slots, lens
      ensures Valid()
      ensures (model, added) == Added(old(model), node.id, node.addr, node.lastSeen)
    {
      StoreIs(model, b, node);
      ghost var buckets := model.buckets;
      ghost var bucket' := [node] + Rest(buckets[b], node.id);
      assert Holds(b, buckets[b]);
      var n := lens[b];
      var i := Find(b, node.id, buckets[b]);
      if i == n && n < K && size >= maxNodes {
        return false;
      }
      model := Added(model, node.id, node.addr, node.lastSeen).0;
      added := i == n;
      if added {
        if n >= K {
          n := K - 1;
        } else {
          size := size + 1;
        }
        Front(b, node, n, n + 1, buckets, bucket');
      } else {
        Front(b, node, i, n, buckets, bucket');
      }
    }

    /** Compact n slots: kept nodes move down over dropped ones. */
    method Compact(base: nat, n: nat, before: int, ghost bucket: seq<Node>) returns (kept: nat)
      requires base + n <= slots.Length && |bucket| == n
      requires forall j :: 0 <= j < n ==> slots[base + j] == bucket[j]
      modifies slots
      ensures kept == |Recent(bucket, before)|
      ensures forall j :: 0 <= j < kept ==> slots[base + j] == Recent(bucket, before)[j]
      ensures forall j :: 0 <= j < slots.Length && !(base <= j < base + n) ==> slots[j] == old(slots[j])
    {
      ghost var done := [];
      kept := 0;
      for i := 0 to n
        invariant kept == |done| <= i && done == Recent(bucket[..i], before)
        invariant forall j :: 0 <= j < kept ==> slots[base + j] == done[j]
        invariant forall j :: i <= j < n ==> slots[base + j] == bucket[j]
        invariant forall j :: 0 <= j < slots.Length && !(base <= j < base + n) ==> slots[j] == old(slots[j])
      {
        RecentNext(bucket, i, before);
        var node := slots[base + i];
        if node.lastSeen > before {
          slots[base + kept] := node;
          assert forall j :: 0 <= j < kept ==> slots[base + j] == done[j];
          done := done + [node];
          kept := kept + 1;
        }
      }
      assert bucket[..n] == bucket;
    }

    method PruneBucket(b: nat, before: int, ghost buckets: seq<seq<Node>>) returns (kept: nat)
      requires b < BUCKETS == |buckets| && slots.Length == BUCKETS * K && lens.Length == BUCKETS
      requires Stores(buckets)
      modifies slots, lens
      ensures kept == |Recent(buckets[b], before)|
      ensures Stores(buckets[b := Recent(buckets[b], before)])
    {
      assert Holds(b, buckets[b]);
      kept := Compact(K * b, lens[b], before, buckets[b]);
      lens[b] := kept;
      ghost var after := buckets[b := Recent(buckets[b], before)];
      forall c | 0 <= c < BUCKETS
        ensures Holds(c, after[c])
      {
        assert old(Holds(c, buckets[c]));
      }
    }

    method Prune(before: int)
      requires Valid()
      modifies this`size, this`model, slots, lens
      ensures Valid()
      ensures model == Pruned(old(model), before)
      ensures size == old(size) - StaleAll(old(model.buckets), before)
    {
      PruneKeepsInv(model, before);
      PrunedSize(model.buckets, before);
      ghost var buckets := model.buckets;
      assert Mixed(buckets, before, 0) == buckets;
      for b := 0 to BUCKETS
        invariant model == old(model)
        invariant Stores(Mixed(buckets, before, b))
        invariant size == Size(Mixed(buckets, before, b))
      {
        ghost var mixed := Mixed(buckets, before, b);
        assert Holds(b, mixed[b]);
        var was := lens[b];
        var kept := PruneBucket(b, before, mixed);
        size := size - (was - kept);
        MixedStep(buckets, before, b);
      }
      model := Pruned(model, before);
      assert Mixed(buckets, before, BUCKETS) == model.buckets;
    }

    method Snapshot() returns (nodes: seq<Node>)
      requires Valid()
      ensures nodes == Flatten(model.buckets)
    {
      nodes := [];
      for b := 0 to BUCKETS
        invariant nodes == Flatten(model.buckets[..b])
      {
        FlattenSnoc(model.buckets[..b], model.buckets[b]);
        assert model.buckets[..b + 1] == model.buckets[..b] + [model.buckets[b]];
        assert Holds(b, model.buckets[b]);
        assert slots[K * b..K * b + lens[b]] == model.buckets[b];
        nodes := nodes + slots[K * b..K * b + lens[b]];
      }
      assert model.buckets[..BUCKETS] == model.buckets;
    }

    /** The nearest stored nodes to a target of any length, by sorting a snapshot and cutting it. */
    method Closest(target: seq<byte>, limit: nat) returns (nodes: seq<Node>)
      requires Valid()
      ensures IsNearest(nodes, Flatten(model.buckets), DistanceTo(Fit(target, 20)), limit)
    {
      var all := Snapshot();
      GoodTable(model);
      FlattenDistinct(local, model.buckets, 0);
      nodes := SortByDistance(all, Fit(target, 20));
      if |nodes| > limit {
        nodes := nodes[..limit];
      }
    }
  }

  /** A stand-in for the library sort: insertion sort by distance. */
  method SortByDistance(nodes: seq<Node>, target: ID) returns (sorted: seq<Node>)
    requires UniqueIDs(nodes)
    ensures |sorted| == |nodes| && Nearing(sorted, DistanceTo(target))
    ensures forall n :: n in sorted <==> n in nodes
  {
    var d := DistanceTo(target);
    sorted := [];
    for i := 0 to |nodes|
      invariant |sorted| == i && Nearing(sorted, d)
      invariant forall n :: n in sorted <==> n in nodes[..i]
    {
      var j := Place(sorted, nodes[i], target);
      if j < |sorted| {
        assert sorted[j] in nodes[..i];
        if d(sorted[j].id) == d(nodes[i].id) {
          SameDistanceSameID(sorted[j].id, nodes[i].id, target);
        }
      }
      InsertNearing(sorted, j, nodes[i], d);
      InsertMembers(sorted, j, nodes[i]);
      sorted := sorted[..j] + [nodes[i]] + sorted[j..];
      assert nodes[..i + 1] == nodes[..i] + [nodes[i]];
    }
    assert nodes[..|nodes|] == nodes;
  }

  /** First place whose node is not nearer than x. */
  method Place(sorted: seq<Node>, x: Node, target: ID) returns (j: nat)
    requires Nearing(sorted, DistanceTo(target))
    ensures j <= |sorted|
    ensures forall k :: 0 <= k < j ==> DistanceTo(target)(sorted[k].id) < DistanceTo(target)(x.id)
    ensures j < |sorted| ==> DistanceTo(target)(x.id) <= DistanceTo(target)(sorted[j].id)
  {
    j := 0;
    while j < |sorted|
      invariant j <= |sorted|
      invariant forall k :: 0 <= k < j ==> DistanceTo(target)(sorted[k].id) < DistanceTo(target)(x.id)
    {
      var nearer := XorLess(sorted[j].id, x.id, target);
      if !nearer {
        return;
      }
      j := j + 1;
    }
  }

  lemma InsertNearing(sorted: seq<Node>, j: nat, x: Node, d: ID -> nat)
    requires Nearing(sorted, d) && j <= |sorted|
    requires forall k :: 0 <= k < j ==> d(sorted[k].id) < d(x.id)
    requires j < |sorted| ==> d(x.id) < d(sorted[j].id)
    ensures Nearing(sorted[..j] + [x] + sorted[j..], d)
  {
    var r := sorted[..j] + [x] + sorted[j..];
    assert forall k :: 0 <= k < |r| ==> r[k] == if k < j then sorted[k] else if k == j then x else sorted[k - 1];
  }

  lemma InsertMembers(sorted: seq<Node>, j: nat, x: Node)
    requires j <= |sorted|
    ensures forall n :: n in sorted[..j] + [x] + sorted[j..] <==> n in sorted || n == x
  {
    assert sorted == sorted[..j] + sorted[j..];
  }

  lemma RecentNext(bucket: seq<Node>, i: nat, before: int)
    requires i < |bucket|
    ensures Recent(bucket[..i + 1], before)
         == Recent(bucket[..i], before) + if bucket[i].lastSeen > before then [bucket[i]] else []
  {
    RecentSnoc(bucket[..i], bucket[i], before);
    assert bucket[..i + 1] == bucket[..i] + [bucket[i]];
  }

  lemma {:induction false} RecentSnoc(bucket: seq<Node>, node: Node, before: int)
    ensures Recent(bucket + [node], before) ==
            Recent(bucket, before) + if node.lastSeen > before then [node] else []
  {
    if bucket == [] {
      assert [] + [node] == [node];
    } else {
      assert (bucket + [node])[1..] == bucket[1..] + [node];
      RecentSnoc(bucket[1..], node, before);
    }
  }

  lemma {:induction false} FlattenSnoc(buckets: seq<seq<Node>>, bucket: seq<Node>)
    ensures Flatten(buckets + [bucket]) == Flatten(buckets) + bucket
  {
    if buckets != [] {
      assert (buckets + [bucket])[1..] == buckets[1..] + [bucket];
      FlattenSnoc(buckets[1..], bucket);
    }
  }

  /** The first n buckets already compacted, the others not yet. */
  ghost function Mixed(buckets: seq<seq<Node>>, before: int, n: nat): (m: seq<seq<Node>>)
    requires n <= |buckets|
    ensures |m| == |buckets|
  {
    RecentAll(buckets[..n], before) + buckets[n..]
  }

  lemma MixedStep(buckets: seq<seq<Node>>, before: int, n: nat)
    requires n < |buckets|
    ensures Mixed(buckets, before, n)[n] == buckets[n]
    ensures Mixed(buckets, before, n + 1) == Mixed(buckets, before, n)[n := Recent(buckets[n], before)]
    ensures Size(Mixed(buckets, before, n + 1)) ==
            Size(Mixed(buckets, before, n)) - |buckets[n]| + |Recent(buckets[n], before)|
  {
    var m := Mixed(buckets, before, n);
    SizeOfUpdate(m, n, Recent(buckets[n], before));
    assert Mixed(buckets, before, n + 1) == m[n := Recent(buckets[n], before)];
  }

  lemma {:induction false} IndexIs(bucket: seq<Node>, id: ID, i: nat)
    requires i <= |bucket| && forall j :: 0 <= j < i ==> bucket[j].id != id
    requires i < |bucket| ==> bucket[i].id == id
    ensures IndexOf(bucket, id) == i
  {
    if i > 0 {
      IndexIs(bucket[1..], id, i - 1);
    }
  }
}
