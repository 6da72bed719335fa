/**
 * The table of outstanding get_peers requests: who was asked about which
 * infohash under which two-byte transaction ID, and since when.
 */
module RequestTables {
  import opened Basics

  datatype TxID = TxID(hi: byte, lo: byte)
  datatype Entry = Entry(infoHash: InfoHash, createdAt: int)

  const MAX_PENDING := 8192
  const MAX_PER_HASH := 2
  const TIMEOUT := 15_000_000_000
  const IDS := 0x1_0000

  type Requests = map<TxID, Entry>

  /** uint16BE. */
  function IdOf(counter: int): TxID
    requires 0 <= counter < IDS
  {
    TxID(counter / 256, counter % 256)
  }

  /** copy(t[:], msg.T): a reply's transaction ID cut or padded to two bytes. */
  function IdOfReply(t: seq<byte>): TxID {
    var two := Fit(t, 2);
    TxID(two[0], two[1])
  }

  ghost function Of(requests: Requests, h: InfoHash): set<TxID> {
    set t | t in requests && requests[t].infoHash == h
  }

  ghost function Hashes(requests: Requests): set<InfoHash> {
    set t | t in requests :: requests[t].infoHash
  }

  /** The summary the per-hash counters must agree with. */
  ghost function Counts(requests: Requests): map<InfoHash, nat> {
    map h | h in Hashes(requests) :: |Of(requests, h)|
  }

  function Live(requests: Requests, now: int): Requests {
    map t | t in requests && requests[t].createdAt > now - TIMEOUT :: requests[t]
  }

  /** A deadline no later than any entry's, present whenever there are entries. */
  ghost predicate IsLowerBound(deadline: Option<int>, requests: Requests) {
    forall t :: t in requests ==> deadline.Some? && deadline.value <= requests[t].createdAt + TIMEOUT
  }

  ghost predicate Bounded(requests: Requests) {
    && |requests| <= MAX_PENDING
    && forall h :: |Of(requests, h)| <= MAX_PER_HASH
  }

  // --------------------------------------------------------- the summary map

  lemma OfRemoved(requests: Requests, t: TxID, h: InfoHash)
    requires t in requests
    ensures Of(requests - {t}, h) == Of(requests, h) - {t}
    ensures t in Of(requests, h) <==> h == requests[t].infoHash
  {
  }

  lemma HashesAreCounted(requests: Requests, h: InfoHash)
    ensures h in Hashes(requests) <==> |Of(requests, h)| > 0
  {
    if |Of(requests, h)| > 0 {
      var t :| t in Of(requests, h);
    }
    if h in Hashes(requests) {
      var t :| t in requests && requests[t].infoHash == h;
      assert t in Of(requests, h);
    }
  }

  /** Decrement-or-delete keeps the counters equal to the counts when one entry goes. */
  lemma CountsRemoved(requests: Requests, t: TxID)
    requires t in requests
    ensures var h := requests[t].infoHash;
            && h in Counts(requests)
            && Counts(requests - {t}) ==
               if Counts(requests)[h] <= 1 then Counts(requests) - {h}
               else Counts(requests)[h := Counts(requests)[h] - 1]
  {
    var h := requests[t].infoHash;
    var fewer := requests - {t};
    assert t in Of(requests, h);
    HashesAreCounted(requests, h);
    forall g
      ensures g in Hashes(fewer) <==> g in Hashes(requests) && (g == h ==> |Of(requests, h)| > 1)
      ensures |Of(fewer, g)| == |Of(requests, g)| - (if g == h then 1 else 0)
    {
      OfRemoved(requests, t, g);
      HashesAreCounted(fewer, g);
      HashesAreCounted(requests, g);
    }
  }

  /** Incrementing keeps the counters equal to the counts when one entry is added under a free ID. */
  lemma CountsAdded(requests: Requests, t: TxID, e: Entry)
    requires t !in requests
    ensures var h := e.infoHash;
            Counts(requests[t := e]) ==
            Counts(requests)[h := 1 + if h in Counts(requests) then Counts(requests)[h] else 0]
  {
    var more := requests[t := e];
    CountsRemoved(more, t);
    assert more - {t} == requests;
    var h, big, small := e.infoHash, Counts(more), Counts(requests);
    assert big[h] > 0 by { HashesAreCounted(more, h); }
    assert h in small ==> small[h] > 0 by { HashesAreCounted(requests, h); }
    assert big.Keys == small.Keys + {h};
  }

  // -------------------------------------------------------- abstract machine

  /** What happened under one transaction ID, in order. */
  datatype Event =
    | Issued(infoHash: InfoHash)
    | Answered(infoHash: InfoHash)
    | Expired(infoHash: InfoHash)
    | RolledBack(infoHash: InfoHash)

  type Log = map<TxID, seq<Event>>

  datatype State = State(counter: int, requests: Requests, pending: map<InfoHash, nat>,
                         nextExpiry: Option<int>, log: Log)

  function At(log: Log, t: TxID): seq<Event> {
    if t in log then log[t] else []
  }

  function Logged(log: Log, t: TxID, e: Event): Log {
    log[t := At(log, t) + [e]]
  }

  predicate TimedOut(requests: Requests, t: TxID, now: int) {
    t in requests && requests[t].createdAt <= now - TIMEOUT
  }

  function LoggedExpiry(log: Log, requests: Requests, now: int): (log': Log)
    ensures forall t :: At(log', t) ==
                        if TimedOut(requests, t, now) then At(log, t) + [Expired(requests[t].infoHash)] else At(log, t)
  {
    map t | t in log.Keys + requests.Keys && (t in log || TimedOut(requests, t, now)) ::
      if TimedOut(requests, t, now) then At(log, t) + [Expired(requests[t].infoHash)] else At(log, t)
  }

  function CountOf(pending: map<InfoHash, nat>, h: InfoHash): nat {
    if h in pending then pending[h] else 0
  }

  /** removeGetPeersRequestLocked on the counters: decrement, or delete the last. */
  function Decremented(pending: map<InfoHash, nat>, h: InfoHash): map<InfoHash, nat> {
    if CountOf(pending, h) <= 1 then pending - {h} else pending[h := pending[h] - 1]
  }

  ghost predicate IsEarliest(requests: Requests, m: TxID) {
    m in requests && forall u :: u in requests ==> requests[m].createdAt <= requests[u].createdAt
  }

  lemma EarliestExists(requests: Requests) returns (m: TxID)
    requires requests != map[]
    ensures IsEarliest(requests, m)
    decreases |requests|
  {
    var t :| t in requests;
    var others := requests - {t};
    m := t;
    if others != map[] {
      assert requests.Keys == others.Keys + {t};
      var n := EarliestExists(others);
      m := if requests[n].createdAt < requests[t].createdAt then n else t;
    }
    forall u | u in requests
      ensures requests[m].createdAt <= requests[u].createdAt
    {
      if u != t {
        assert u in others && others[u] == requests[u];
      }
    }
  }

  lemma SomeEarliest(requests: Requests)
    requires requests != map[]
    ensures exists m :: IsEarliest(requests, m)
  {
    var m := EarliestExists(requests);
  }

  /** The earliest deadline of all entries. */
  ghost function Earliest(requests: Requests): Option<int> {
    if requests == map[] then None else
    SomeEarliest(requests);
    var t :| IsEarliest(requests, t);
    Some(requests[t].createdAt + TIMEOUT)
  }

  /** The expiry sweep without its early return. */
  ghost function FullScan(s: State, now: int): State {
    var live := Live(s.requests, now);
    State(s.counter, live, Counts(live), Earliest(live), LoggedExpiry(s.log, s.requests, now))
  }

  /** expireOldGetPeersRequestsLocked. */
  ghost function Swept(s: State, now: int): State {
    if s.nextExpiry.Some? && now < s.nextExpiry.value then s else FullScan(s, now)
  }

  /** The guard that ends the ID search: free, or held by an entry that is out of time. */
  predicate Takeable(requests: Requests, t: TxID, now: int) {
    t !in requests || now - requests[t].createdAt >= TIMEOUT
  }

  /** The counter value j steps on, going round. */
  function Wrap(c: int, j: nat): (w: int)
    ensures 0 <= w < IDS
  {
    (c + j) % IDS
  }

  /** The ID j steps on from a counter value. */
  function Nth(c: int, j: nat): TxID {
    IdOf(Wrap(c, j))
  }

  /** First offset at or after j whose ID is takeable, or IDS. */
  function Passed(requests: Requests, c: int, now: int, j: nat): (k: nat)
    requires 0 <= c < IDS && j <= IDS
    decreases IDS - j
  {
    if j == IDS || Takeable(requests, Nth(c, j), now) then j else Passed(requests, c, now, j + 1)
  }

  ghost predicate Admits(s: State, h: InfoHash) {
    CountOf(s.pending, h) < MAX_PER_HASH && |s.requests| < MAX_PENDING
  }

  /** Store a request under the ID k steps on from the counter. */
  ghost function Stored(s: State, k: nat, h: InfoHash, now: int): State
    requires 0 <= s.counter < IDS
  {
    var t, deadline := Nth(s.counter, k), now + TIMEOUT;
    State(Wrap(s.counter, k + 1),
          s.requests[t := Entry(h, now)],
          s.pending[h := CountOf(s.pending, h) + 1],
          if s.nextExpiry.None? || deadline < s.nextExpiry.value then Some(deadline) else s.nextExpiry,
          Logged(s.log, t, Issued(h)))
  }

  /** requestPeers up to the send: sweep, check both limits, pick an ID, store. */
  ghost function Issue(s: State, h: InfoHash, now: int): (State, Option<TxID>)
    requires 0 <= s.counter < IDS
  {
    var s1 := Swept(s, now);
    if !Admits(s1, h) then (s1, None) else
    var k := Passed(s1.requests, s1.counter, now, 0);
    (Stored(s1, k, h, now), Some(Nth(s1.counter, k)))
  }

  ghost function Drop(s: State, t: TxID, e: Event): State
    requires t in s.requests
  {
    s.(requests := s.requests - {t}, pending := Decremented(s.pending, s.requests[t].infoHash),
       log := Logged(s.log, t, e))
  }

  /** onGetPeersResponse: the hash a reply is credited to, if any. */
  ghost function Answer(s: State, reply: seq<byte>): (State, Option<InfoHash>) {
    var t := IdOfReply(reply);
    if t !in s.requests then (s, None) else
    var h := s.requests[t].infoHash;
    (Drop(s, t, Answered(h)), Some(h))
  }

  /** The failed-send branch, which takes the lock again and removes whatever now has the ID. */
  ghost function RolledBackState(s: State, t: TxID): State {
    if t !in s.requests then s else Drop(s, t, RolledBack(s.requests[t].infoHash))
  }

  // -------------------------------------------------------------- invariants

  /** Issues alternate with closings of the same hash. */
  ghost predicate WellPaired(l: seq<Event>) {
    forall i :: 0 <= i < |l| ==> PairOk(l, i)
  }

  ghost predicate PairOk(l: seq<Event>, i: nat)
    requires i < |l|
  {
    if i % 2 == 0 then l[i].Issued? else !l[i].Issued? && l[i].infoHash == l[i - 1].infoHash
  }

  /** The log of one ID against the entry stored under it. */
  ghost predicate LogOk(l: seq<Event>, e: Option<Entry>) {
    && WellPaired(l)
    && (e.Some? <==> |l| % 2 == 1)
    && (e.Some? ==> l[|l| - 1] == Issued(e.value.infoHash))
  }

  function Lookup(requests: Requests, t: TxID): Option<Entry> {
    if t in requests then Some(requests[t]) else None
  }

  ghost predicate LogAgrees(log: Log, requests: Requests) {
    forall t :: LogOk(At(log, t), Lookup(requests, t))
  }

  lemma LogIssue(l: seq<Event>, e: Entry)
    requires LogOk(l, None)
    ensures LogOk(l + [Issued(e.infoHash)], Some(e))
  {
    var m := l + [Issued(e.infoHash)];
    assert forall i :: 0 <= i < |l| ==> PairOk(l, i) ==> PairOk(m, i);
  }

  lemma LogClose(l: seq<Event>, e: Entry, closing: Event)
    requires LogOk(l, Some(e)) && !closing.Issued? && closing.infoHash == e.infoHash
    ensures LogOk(l + [closing], None)
  {
    var m := l + [closing];
    assert forall i :: 0 <= i < |l| ==> PairOk(l, i) ==> PairOk(m, i);
  }

  ghost predicate Inv(s: State) {
    && 0 <= s.counter < IDS
    && s.pending == Counts(s.requests)
    && Bounded(s.requests)
    && IsLowerBound(s.nextExpiry, s.requests)
    && LogAgrees(s.log, s.requests)
  }

  /** Read off Counts: a counter is the number of entries for its hash, and none is zero. */
  lemma PendingIsExact(s: State, h: InfoHash)
    requires Inv(s)
    ensures CountOf(s.pending, h) == |Of(s.requests, h)| <= 2
    ensures h in s.pending <==> |Of(s.requests, h)| > 0
  {
    HashesAreCounted(s.requests, h);
  }

  /** The early return is harmless: requests and counters come out as from a full scan. */
  lemma SweepIsFullScan(s: State, now: int)
    requires Inv(s)
    ensures Swept(s, now).requests == FullScan(s, now).requests == Live(s.requests, now)
    ensures Swept(s, now).pending == FullScan(s, now).pending
  {
    if s.nextExpiry.Some? && now < s.nextExpiry.value {
      assert Live(s.requests, now) == s.requests;
    }
  }

  lemma FewerIsBounded(requests: Requests, fewer: Requests)
    requires Bounded(requests) && fewer.Keys <= requests.Keys
    requires forall t :: t in fewer ==> fewer[t] == requests[t]
    ensures Bounded(fewer)
  {
    SubsetSize(fewer.Keys, requests.Keys);
    forall h
      ensures |Of(fewer, h)| <= MAX_PER_HASH
    {
      SubsetSize(Of(fewer, h), Of(requests, h));
    }
  }

  lemma EarliestIsLowerBound(requests: Requests)
    ensures IsLowerBound(Earliest(requests), requests)
  {
  }

  /** A deadline that is a lower bound and some entry's own is the earliest. */
  lemma EarliestIs(requests: Requests, deadline: Option<int>)
    requires IsLowerBound(deadline, requests)
    requires deadline.Some? ==> exists t :: t in requests && deadline.value == requests[t].createdAt + TIMEOUT
    ensures Earliest(requests) == deadline
  {
  }

  lemma ExpiryKeepsLog(log: Log, requests: Requests, now: int)
    requires LogAgrees(log, requests)
    ensures LogAgrees(LoggedExpiry(log, requests, now), Live(requests, now))
  {
    var log', live := LoggedExpiry(log, requests, now), Live(requests, now);
    forall t
      ensures LogOk(At(log', t), Lookup(live, t))
    {
      assert LogOk(At(log, t), Lookup(requests, t));
      if TimedOut(requests, t, now) {
        LogClose(At(log, t), requests[t], Expired(requests[t].infoHash));
      } else {
        assert Lookup(live, t) == Lookup(requests, t);
      }
    }
  }

  lemma SweepKeepsInv(s: State, now: int)
    requires Inv(s)
    ensures Inv(Swept(s, now))
  {
    if !(s.nextExpiry.Some? && now < s.nextExpiry.value) {
      var live := Live(s.requests, now);
      FewerIsBounded(s.requests, live);
      EarliestIsLowerBound(live);
      ExpiryKeepsLog(s.log, s.requests, now);
    }
  }

  lemma CloseKeepsLog(log: Log, requests: Requests, t: TxID, e: Event)
    requires LogAgrees(log, requests) && t in requests && !e.Issued? && e.infoHash == requests[t].infoHash
    ensures LogAgrees(Logged(log, t, e), requests - {t})
  {
    forall u
      ensures LogOk(At(Logged(log, t, e), u), Lookup(requests - {t}, u))
    {
      assert LogOk(At(log, u), Lookup(requests, u));
      if u == t {
        LogClose(At(log, t), requests[t], e);
      } else {
        assert Lookup(requests - {t}, u) == Lookup(requests, u);
      }
    }
  }

  lemma DropKeepsInv(s: State, t: TxID, e: Event)
    requires Inv(s) && t in s.requests && !e.Issued? && e.infoHash == s.requests[t].infoHash
    ensures Inv(Drop(s, t, e))
  {
    var s' := Drop(s, t, e);
    assert s'.pending == Counts(s'.requests) by { CountsRemoved(s.requests, t); }
    assert Bounded(s'.requests) by { FewerIsBounded(s.requests, s'.requests); }
    assert LogAgrees(s'.log, s'.requests) by { CloseKeepsLog(s.log, s.requests, t, e); }
  }

  // ------------------------------------------------------------ the ID search

  /** Offsets less than a full turn apart give different IDs. */
  lemma NthDiffers(c: int, i: nat, j: nat)
    requires 0 <= c < IDS && i < j < IDS
    ensures Nth(c, i) != Nth(c, j)
  {
    IdInjective(Wrap(c, i), Wrap(c, j));
  }

  lemma IdInjective(x: int, y: int)
    requires 0 <= x < IDS && 0 <= y < IDS
    ensures IdOf(x) == IdOf(y) ==> x == y
  {
    assert x == 256 * (x / 256) + x % 256 && y == 256 * (y / 256) + y % 256;
  }

  /** The first n IDs from a counter value are n different IDs. */
  lemma {:induction false} NthIDs(c: int, n: nat) returns (ids: set<TxID>)
    requires 0 <= c < IDS && n <= IDS
    ensures |ids| == n
    ensures forall t :: t in ids ==> exists i :: 0 <= i < n && t == Nth(c, i)
  {
    if n == 0 {
      ids := {};
    } else {
      var fewer := NthIDs(c, n - 1);
      forall t | t in fewer
        ensures t != Nth(c, n - 1)
      {
        var i :| 0 <= i < n - 1 && t == Nth(c, i);
        NthDiffers(c, i, n - 1);
      }
      ids := fewer + {Nth(c, n - 1)};
    }
  }

  lemma {:induction false} PassedAreTaken(requests: Requests, c: int, now: int, j: nat)
    requires 0 <= c < IDS && j <= IDS
    ensures j <= Passed(requests, c, now, j) <= IDS
    ensures forall i :: j <= i < Passed(requests, c, now, j) ==> !Takeable(requests, Nth(c, i), now)
    ensures Passed(requests, c, now, j) < IDS ==> Takeable(requests, Nth(c, Passed(requests, c, now, j)), now)
    decreases IDS - j
  {
    if j < IDS && !Takeable(requests, Nth(c, j), now) {
      PassedAreTaken(requests, c, now, j + 1);
    }
  }

  /**
   * The search ends for every table and counter value, having passed over no more
   * IDs than there are entries, and ends on the first takeable one.
   */
  lemma SearchEnds(requests: Requests, c: int, now: int)
    requires 0 <= c < IDS && |requests| < IDS
    ensures var k := Passed(requests, c, now, 0);
            && k <= |requests|
            && Takeable(requests, Nth(c, k), now)
            && forall i :: 0 <= i < k ==> !Takeable(requests, Nth(c, i), now)
  {
    PassedAreTaken(requests, c, now, 0);
    var k := Passed(requests, c, now, 0);
    var ids := NthIDs(c, k);
    forall t | t in ids
      ensures t in requests
    {
      var i :| 0 <= i < k && t == Nth(c, i);
      assert !Takeable(requests, Nth(c, i), now);
    }
    SubsetSize(ids, requests.Keys);
  }

  lemma IssueKeepsLog(log: Log, requests: Requests, t: TxID, e: Entry)
    requires LogAgrees(log, requests) && t !in requests
    ensures LogAgrees(Logged(log, t, Issued(e.infoHash)), requests[t := e])
  {
    forall u
      ensures LogOk(At(Logged(log, t, Issued(e.infoHash)), u), Lookup(requests[t := e], u))
    {
      assert LogOk(At(log, u), Lookup(requests, u));
      if u == t {
        LogIssue(At(log, t), e);
      } else {
        assert Lookup(requests[t := e], u) == Lookup(requests, u);
      }
    }
  }

  lemma LowerBoundAdded(deadline: Option<int>, requests: Requests, t: TxID, e: Entry)
    requires IsLowerBound(deadline, requests)
    ensures var mine := e.createdAt + TIMEOUT;
            IsLowerBound(if deadline.None? || mine < deadline.value then Some(mine) else deadline, requests[t := e])
  {
  }

  lemma StoreKeepsInv(s: State, k: nat, h: InfoHash, now: int)
    requires Inv(s) && Admits(s, h) && Nth(s.counter, k) !in s.requests
    ensures Inv(Stored(s, k, h, now))
  {
    var t, e, s' := Nth(s.counter, k), Entry(h, now), Stored(s, k, h, now);
    assert |Of(s.requests, h)| < MAX_PER_HASH by { PendingIsExact(s, h); }
    assert s'.pending == Counts(s'.requests) by { CountsAdded(s.requests, t, e); }
    assert Bounded(s'.requests) by { AddedIsBounded(s.requests, t, e); }
    assert IsLowerBound(s'.nextExpiry, s'.requests) by { LowerBoundAdded(s.nextExpiry, s.requests, t, e); }
    assert LogAgrees(s'.log, s'.requests) by { IssueKeepsLog(s.log, s.requests, t, e); }
  }

  /** In a swept table no entry is out of time, so only free IDs are takeable. */
  lemma SweptHasNoneExpired(s: State, now: int, t: TxID)
    requires Inv(s)
    ensures Takeable(Swept(s, now).requests, t, now) <==> t !in Swept(s, now).requests
  {
    SweepIsFullScan(s, now);
  }

  /** A new request never overwrites an entry, and keeps the invariant. */
  lemma IssueKeepsInv(s: State, h: InfoHash, now: int)
    requires Inv(s)
    ensures Inv(Issue(s, h, now).0)
    ensures Issue(s, h, now).1.Some? ==> Issue(s, h, now).1.value !in Swept(s, now).requests
  {
    SweepKeepsInv(s, now);
    var s1 := Swept(s, now);
    if Admits(s1, h) {
      SearchEnds(s1.requests, s1.counter, now);
      var k := Passed(s1.requests, s1.counter, now, 0);
      SweptHasNoneExpired(s, now, Nth(s1.counter, k));
      StoreKeepsInv(s1, k, h, now);
    }
  }

  lemma OfAdded(requests: Requests, t: TxID, e: Entry, h: InfoHash)
    requires t !in requests
    ensures |Of(requests[t := e], h)| == |Of(requests, h)| + if h == e.infoHash then 1 else 0
  {
    if h == e.infoHash {
      assert Of(requests[t := e], h) == Of(requests, h) + {t};
    } else {
      assert Of(requests[t := e], h) == Of(requests, h);
    }
  }

  lemma SizeAdded(requests: Requests, t: TxID, e: Entry)
    requires t !in requests
    ensures |requests[t := e]| == |requests| + 1
  {
    assert requests[t := e].Keys == requests.Keys + {t};
    assert |requests.Keys| == |requests| && |requests[t := e].Keys| == |requests[t := e]|;
  }

  lemma AddedIsBounded(requests: Requests, t: TxID, e: Entry)
    requires Bounded(requests) && t !in requests
    requires |requests| < MAX_PENDING && |Of(requests, e.infoHash)| < MAX_PER_HASH
    ensures Bounded(requests[t := e])
  {
    SizeAdded(requests, t, e);
    var more := requests[t := e];
    forall h
      ensures |Of(more, h)| <= MAX_PER_HASH
    {
      OfAdded(requests, t, e, h);
    }
  }

  // -------------------------------------------------------------------- runs

  datatype Step =
    | DoIssue(infoHash: InfoHash, at: int)
    | DoAnswer(reply: seq<byte>)
    | DoSweep(at: int)
    | DoRollBack(id: TxID)

  ghost function Next(s: State, step: Step): State
    requires 0 <= s.counter < IDS
  {
    match step
    case DoIssue(h, now) => Issue(s, h, now).0
    case DoAnswer(reply) => Answer(s, reply).0
    case DoSweep(now) => Swept(s, now)
    case DoRollBack(t) => RolledBackState(s, t)
  }

  lemma NextKeepsInv(s: State, step: Step)
    requires Inv(s)
    ensures Inv(Next(s, step))
  {
    match step {
      case DoIssue(h, now) => IssueKeepsInv(s, h, now);
      case DoAnswer(reply) =>
        var t := IdOfReply(reply);
        if t in s.requests {
          DropKeepsInv(s, t, Answered(s.requests[t].infoHash));
        }
      case DoSweep(now) => SweepKeepsInv(s, now);
      case DoRollBack(t) =>
        if t in s.requests {
          DropKeepsInv(s, t, RolledBack(s.requests[t].infoHash));
        }
    }
  }

  ghost function Start(counter: int): State {
    State(counter, map[], map[], None, map[])
  }

  ghost function Run(counter: int, steps: seq<Step>): (s: State)
    requires 0 <= counter < IDS
    ensures Inv(s)
  {
    if steps == [] then
      Start(counter)
    else
      var s := Run(counter, steps[..|steps| - 1]);
      NextKeepsInv(s, steps[|steps| - 1]);
      Next(s, steps[|steps| - 1])
  }

  /** The two bytes of the i-th ID are the counter i steps on, high byte first, going round at 65536. */
  lemma IdIsBigEndian(counter: int, i: nat)
    ensures Wrap(counter, i) == (counter + i) % 65536
    ensures 256 * Nth(counter, i).hi as int + Nth(counter, i).lo as int == (counter + i) % 65536
  {
  }

  /** The ID of a reply is its first two bytes in this order; bytes that are missing read as zero. */
  lemma ReplyReadsBack(t: TxID, more: seq<byte>)
    ensures IdOfReply([t.hi, t.lo]) == IdOfReply([t.hi, t.lo] + more) == t
    ensures IdOfReply([t.hi]) == TxID(t.hi, 0) && IdOfReply([]) == TxID(0, 0)
  {
    var long := [t.hi, t.lo] + more;
    assert long[..2][0] == t.hi && long[..2][1] == t.lo;
    assert ([t.hi] + seq(1, _ => 0))[0] == t.hi;
  }

  /**
   * In every run a reply is credited exactly when the last thing that happened under the ID
   * its first two bytes make is an issue, to the hash of that issue; under each ID, issues
   * alternate with closings of the same hash.
   */
  lemma AnswersMatchIssues(counter: int, steps: seq<Step>, t: TxID, more: seq<byte>, h: InfoHash)
    requires 0 <= counter < IDS
    ensures var s := Run(counter, steps);
            var l := At(s.log, t);
            WellPaired(l) && (Answer(s, [t.hi, t.lo] + more).1 == Some(h) <==> l != [] && l[|l| - 1] == Issued(h))
  {
    ReplyReadsBack(t, more);
    AnswerMatches(Run(counter, steps), [t.hi, t.lo] + more, h);
  }

  /** What alternating means: issues in even places, each followed by its closing. */
  lemma PairsAlternate(l: seq<Event>, k: nat)
    requires WellPaired(l)
    ensures 2 * k < |l| ==> l[2 * k].Issued?
    ensures 2 * k + 1 < |l| ==> !l[2 * k + 1].Issued? && l[2 * k + 1].infoHash == l[2 * k].infoHash
  {
    assert 2 * k < |l| ==> PairOk(l, 2 * k);
    assert 2 * k + 1 < |l| ==> PairOk(l, 2 * k + 1);
  }

  lemma AnswerMatches(s: State, reply: seq<byte>, h: InfoHash)
    requires Inv(s)
    ensures var l := At(s.log, IdOfReply(reply));
            WellPaired(l) && (Answer(s, reply).1 == Some(h) <==> l != [] && l[|l| - 1] == Issued(h))
  {
    var l := At(s.log, IdOfReply(reply));
    assert LogOk(l, Lookup(s.requests, IdOfReply(reply)));
    assert l != [] ==> PairOk(l, |l| - 1);
  }

  /** A request that was issued is answered by a reply that carries the two bytes sent with it. */
  lemma IssuedIsAnswered(s: State, h: InfoHash, now: int)
    requires Inv(s) && Issue(s, h, now).1.Some?
    ensures var (s', issued) := Issue(s, h, now);
            Answer(s', [issued.value.hi, issued.value.lo]).1 == Some(h)
  {
    ReplyReadsBack(Issue(s, h, now).1.value, []);
    IssueStores(s, h, now);
  }

  /** A sweep leaves exactly the requests younger than 15 seconds, whether it returns early or not. */
  lemma SweepKeepsTheYoung(s: State, now: int, t: TxID)
    requires Inv(s)
    ensures t in Swept(s, now).requests <==> t in s.requests && now - s.requests[t].createdAt < 15_000_000_000
    ensures t in Swept(s, now).requests ==> Swept(s, now).requests[t] == s.requests[t]
    ensures Swept(s, now).counter == s.counter
  {
    SweepIsFullScan(s, now);
  }

  /**
   * An issue sweeps, and then stores the request, dated now, exactly when fewer than two
   * requests for the hash and fewer than 8192 in all are left; it takes the first free ID
   * from the counter on and leaves the counter behind it.
   */
  lemma IssueStores(s: State, h: InfoHash, now: int)
    requires Inv(s)
    ensures var (s', issued) := Issue(s, h, now);
            var live := Swept(s, now).requests;
            && (issued.Some? <==> |Of(live, h)| < 2 && |live| < 8192)
            && (issued.None? ==> s'.requests == live && s'.counter == s.counter)
            && (issued.Some? ==>
                  && issued.value !in live && s'.requests == live[issued.value := Entry(h, now)]
                  && exists k: nat :: IsFirstFree(live, s.counter, k) && issued.value == Nth(s.counter, k)
                                      && s'.counter == Wrap(s.counter, k + 1))
  {
    SweepKeepsInv(s, now);
    SweepIsFullScan(s, now);
    var s1 := Swept(s, now);
    PendingIsExact(s1, h);
    if Admits(s1, h) {
      FirstFree(s, now);
      assert IsFirstFree(s1.requests, s1.counter, Passed(s1.requests, s1.counter, now, 0));
    }
  }

  /** The k-th ID from a counter value on is the first that is not taken. */
  ghost predicate IsFirstFree(requests: Requests, counter: int, k: nat) {
    Nth(counter, k) !in requests && forall i :: 0 <= i < k ==> Nth(counter, i) in requests
  }

  lemma FirstFree(s: State, now: int)
    requires Inv(s) && |Swept(s, now).requests| < IDS
    ensures var s1 := Swept(s, now);
            IsFirstFree(s1.requests, s.counter, Passed(s1.requests, s1.counter, now, 0))
  {
    SweepIsFullScan(s, now);
    var s1 := Swept(s, now);
    var k := Passed(s1.requests, s1.counter, now, 0);
    SearchEnds(s1.requests, s1.counter, now);
    SweptHasNoneExpired(s, now, Nth(s1.counter, k));
    forall i | 0 <= i < k
      ensures Nth(s1.counter, i) in s1.requests
    {
      SweptHasNoneExpired(s, now, Nth(s1.counter, i));
    }
  }

  /** Never more than 8192 requests, two for a hash, and never a deadline later than one of theirs. */
  lemma TableIsBounded(counter: int, steps: seq<Step>, h: InfoHash, t: TxID)
    requires 0 <= counter < IDS
    ensures var s := Run(counter, steps);
            && |s.requests| <= 8192 && |Of(s.requests, h)| <= 2
            && (t in s.requests ==>
                  s.nextExpiry.Some? && s.nextExpiry.value <= s.requests[t].createdAt + 15_000_000_000)
  {
    assert Inv(Run(counter, steps));
  }

  /** A scan sets the deadline of the request that is out of time first. */
  lemma ScanFindsEarliest(s: State, now: int)
    ensures var s' := FullScan(s, now);
            && (s'.nextExpiry.None? <==> s'.requests == map[])
            && (s'.nextExpiry.Some? ==>
                  exists t :: t in s'.requests && s'.nextExpiry.value == s'.requests[t].createdAt + 15_000_000_000)
  {
    var live := Live(s.requests, now);
    if live != map[] {
      SomeEarliest(live);
    }
  }

  /** An answer and a rollback take out just the request under their ID. */
  lemma ClosingLeavesOthers(s: State, t: TxID, more: seq<byte>)
    ensures var s' := Answer(s, [t.hi, t.lo] + more).0;
            s'.requests == s.requests - {t} && s'.counter == s.counter && s'.nextExpiry == s.nextExpiry
    ensures var s' := RolledBackState(s, t);
            s'.requests == s.requests - {t} && s'.counter == s.counter && s'.nextExpiry == s.nextExpiry
  {
    ReplyReadsBack(t, more);
    if t !in s.requests {
      assert s.requests - {t} == s.requests;
    }
  }

  /** A reply is credited at most once: the same ID finds nothing until it is issued again. */
  lemma SecondAnswerIsIgnored(s: State, reply: seq<byte>)
    ensures Answer(Answer(s, reply).0, reply) == (Answer(s, reply).0, None)
  {
  }

  // --------------------------------------------------------------- the class

  class RequestTable {
    var counter: int
    var requests: Requests
    var pending: map<InfoHash, nat>
    var nextExpiry: Option<int>
    var deduped: nat
    var rejected: nat
    var sendDropped: nat
    ghost var log: Log

    ghost function View(): State
      reads this
    {
      State(counter, requests, pending, nextExpiry, log)
    }

    ghost predicate Valid()
      reads this
    {
      Inv(View())
    }

    constructor ()
      ensures Valid() && View() == Start(0)
    {
      counter, requests, pending, nextExpiry := 0, map[], map[], None;
      deduped, rejected, sendDropped, log := 0, 0, 0, map[];
    }

    /** removeGetPeersRequestLocked. */
    method Remove(t: TxID)
      requires t in requests && pending == Counts(requests)
      modifies this`requests, this`pending
      ensures pending == Counts(requests)
      ensures requests == old(requests) - {t}
      ensures pending == Decremented(old(pending), old(requests)[t].infoHash)
    {
      CountsRemoved(requests, t);
      var h := requests[t].infoHash;
      requests := requests - {t};
      var count := if h in pending then pending[h] else 0;
      if count <= 1 {
        pending := pending - {h};
      } else {
        pending := pending[h := count - 1];
      }
    }

    /** The scan of the expiry sweep, deleting while it goes and keeping the earliest deadline. */
    method Scan(now: int) returns (next: Option<int>)
      requires pending == Counts(requests)
      modifies this`requests, this`pending
      ensures requests == Live(old(requests), now) && pending == Counts(requests)
      ensures next == Earliest(requests)
    {
      ghost var all := requests;
      ghost var first := TxID(0, 0);
      next := None;
      var todo := requests.Keys;
      while todo != {}
        invariant todo <= requests.Keys <= all.Keys
        invariant forall t :: t in requests ==> requests[t] == all[t]
        invariant forall t :: t in all && t !in todo ==> (t in requests <==> all[t].createdAt > now - TIMEOUT)
        invariant pending == Counts(requests)
        invariant forall t :: t in requests && t !in todo ==> next.Some? && next.value <= all[t].createdAt + TIMEOUT
        invariant next.Some? ==> first in requests && first !in todo && next.value == all[first].createdAt + TIMEOUT
        decreases todo
      {
        var t :| t in todo;
        todo := todo - {t};
        var entry := requests[t];
        if entry.createdAt <= now - TIMEOUT {
          Remove(t);
        } else {
          var expiresAt := entry.createdAt + TIMEOUT;
          if next.None? || expiresAt < next.value {
            next, first := Some(expiresAt), t;
          }
        }
      }
      assert requests == Live(all, now);
      EarliestIs(requests, next);
    }

    method FullSweep(now: int)
      requires pending == Counts(requests)
      modifies this`requests, this`pending, this`nextExpiry, this`log
      ensures View() == FullScan(old(View()), now)
    {
      log := LoggedExpiry(log, requests, now);
      nextExpiry := Scan(now);
    }

    /** expireOldGetPeersRequestsLocked: return early or scan. */
    method ExpireOld(now: int)
      requires Valid()
      modifies this`requests, this`pending, this`nextExpiry, this`log
      ensures Valid() && View() == Swept(old(View()), now)
    {
      SweepKeepsInv(View(), now);
      if nextExpiry.Some? && now < nextExpiry.value {
        return;
      }
      FullSweep(now);
    }

    /** The ID search: take the counter's ID and go on while it is not takeable. */
    method NextID(now: int) returns (t: TxID)
      requires 0 <= counter < IDS && |requests| < IDS
      modifies this`counter
      ensures var k := Passed(requests, old(counter), now, 0);
              t == Nth(old(counter), k) && counter == Wrap(old(counter), k + 1)
    {
      ghost var c, k, j := counter, Passed(requests, counter, now, 0), 0;
      WrapNext(c, 0);
      SearchEndsAt(requests, c, now, 0);
      t := IdOf(counter);
      counter := (counter + 1) % IDS;
      while !Takeable(requests, t, now)
        invariant j <= k && t == Nth(c, j) && counter == Wrap(c, j + 1)
        invariant Takeable(requests, t, now) <==> j == k
        decreases k - j
      {
        WrapNext(c, j + 1);
        j := j + 1;
        SearchEndsAt(requests, c, now, j);
        t := IdOf(counter);
        counter := (counter + 1) % IDS;
      }
    }

    method Store(infoHash: InfoHash, now: int) returns (t: TxID)
      requires 0 <= counter < IDS && |requests| < IDS
      modifies this`counter, this`requests, this`pending, this`nextExpiry, this`log
      ensures var k := Passed(old(requests), old(counter), now, 0);
              t == Nth(old(counter), k) && View() == Stored(old(View()), k, infoHash, now)
    {
      t := NextID(now);
      requests := requests[t := Entry(infoHash, now)];
      pending := pending[infoHash := CountOf(pending, infoHash) + 1];
      var expiresAt := now + TIMEOUT;
      if nextExpiry.None? || expiresAt < nextExpiry.value {
        nextExpiry := Some(expiresAt);
      }
      log := Logged(log, t, Issued(infoHash));
    }

    /** requestPeers up to the send. */
    method RequestPeers(infoHash: InfoHash, now: int) returns (issued: Option<TxID>)
      requires Valid()
      modifies this
      ensures Valid()
      ensures (View(), issued) == Issue(old(View()), infoHash, now)
      ensures var live := Swept(old(View()), now).requests;
              && deduped == old(deduped) + (if |Of(live, infoHash)| >= 2 then 1 else 0)
              && rejected == old(rejected) + (if |Of(live, infoHash)| < 2 && |live| >= 8192 then 1 else 0)
    {
      ghost var live := Swept(View(), now);
      assert CountOf(live.pending, infoHash) == |Of(live.requests, infoHash)| by {
        SweepKeepsInv(View(), now);
        PendingIsExact(live, infoHash);
      }
      ghost var goal := Issue(View(), infoHash, now).0;
      IssueKeepsInv(View(), infoHash, now);
      ExpireOld(now);
      if CountOf(pending, infoHash) >= MAX_PER_HASH {
        deduped := deduped + 1;
        return None;
      }
      if |requests| >= MAX_PENDING {
        rejected := rejected + 1;
        return None;
      }
      var t := Store(infoHash, now);
      assert View() == goal;
      return Some(t);
    }

    /** The second critical section of requestPeers, entered when the send failed. */
    method SendFailed(t: TxID)
      requires Valid()
      modifies this`requests, this`pending, this`log, this`sendDropped
      ensures Valid() && View() == RolledBackState(old(View()), t)
      ensures sendDropped == old(sendDropped) + 1
    {
      NextKeepsInv(View(), DoRollBack(t));
      if t in requests {
        log := Logged(log, t, RolledBack(requests[t].infoHash));
        Remove(t);
      }
      sendDropped := sendDropped + 1;
    }

    /** onGetPeersResponse: find, remove, and hand back the hash the reply is about. */
    method OnGetPeersResponse(reply: seq<byte>) returns (found: Option<InfoHash>)
      requires Valid()
      modifies this`requests, this`pending, this`log
      ensures Valid() && (View(), found) == Answer(old(View()), reply)
    {
      NextKeepsInv(View(), DoAnswer(reply));
      var t := IdOfReply(reply);
      if t !in requests {
        return None;
      }
      found := Some(requests[t].infoHash);
      log := Logged(log, t, Answered(requests[t].infoHash));
      Remove(t);
    }
  }

  lemma WrapNext(c: int, j: nat)
    ensures (Wrap(c, j) + 1) % IDS == Wrap(c, j + 1)
    ensures 0 <= c < IDS ==> Wrap(c, 0) == c
  {
  }

  /** Up to where the search ends, an ID is takeable only there. */
  lemma SearchEndsAt(requests: Requests, c: int, now: int, j: nat)
    requires 0 <= c < IDS && |requests| < IDS && j <= Passed(requests, c, now, 0)
    ensures Takeable(requests, Nth(c, j), now) <==> j == Passed(requests, c, now, 0)
  {
    SearchEnds(requests, c, now);
  }
}
