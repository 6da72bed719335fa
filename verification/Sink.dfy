/**
 * The download sink: which infohashes are being fetched, from which peers still to
 * be tried, with exactly one download attempt each. Goroutines are attempts in a
 * multiset; each ends in one call of Flush or OnLeechError.
 */
module Sinks {
  import opened Basics
  import opened NetAddr
  import opened WorkerQueues

  datatype Result = Result(infoHash: InfoHash, peers: seq<AddrPort>, family: int)

  /** The sink's fields, the running attempts, and counts of what happened to each infohash. */
  datatype SinkState = SinkState(
    maxLeeches: int, terminated: bool,
    waiting: map<InfoHash, seq<AddrPort>>, families: map<InfoHash, int>, peers: map<InfoHash, set<AddrPort>>,
    attempts: multiset<InfoHash>,
    accepted: multiset<InfoHash>, drained: multiset<InfoHash>, discarded: multiset<InfoHash>)

  function New(maxLeeches: int): SinkState {
    SinkState(maxLeeches, false, map[], map[], map[], multiset{}, multiset{}, multiset{}, multiset{})
  }

  // ------------------------------------------------------------------- peers

  /** Usable peers not seen before, each at its first occurrence. */
  function FreshPeers(peers: seq<AddrPort>, seen: set<AddrPort>): seq<AddrPort> {
    if peers == [] then []
    else if peers[0].Usable() && peers[0] !in seen then [peers[0]] + FreshPeers(peers[1..], seen + {peers[0]})
    else FreshPeers(peers[1..], seen)
  }

  function PeerSet(peers: seq<AddrPort>): set<AddrPort> {
    set p | p in peers
  }

  lemma {:induction false} FreshPeersAre(peers: seq<AddrPort>, seen: set<AddrPort>)
    ensures Distinct(FreshPeers(peers, seen))
    ensures forall p :: p in FreshPeers(peers, seen) <==> p in peers && p.Usable() && p !in seen
  {
    if peers != [] {
      FreshPeersAre(peers[1..], seen);
      FreshPeersAre(peers[1..], seen + {peers[0]});
    }
  }

  lemma {:induction false} FreshInOrder(peers: seq<AddrPort>, seen: set<AddrPort>)
    ensures IsSublist(FreshPeers(peers, seen), peers)
  {
    if peers != [] {
      var fresh_ := FreshPeers(peers, seen);
      if peers[0].Usable() && peers[0] !in seen {
        FreshInOrder(peers[1..], seen + {peers[0]});
        assert fresh_[1..] == FreshPeers(peers[1..], seen + {peers[0]});
      } else {
        FreshInOrder(peers[1..], seen);
      }
    }
  }

  method UniqueValidPeers(peers: seq<AddrPort>, existing: set<AddrPort>) returns (result: seq<AddrPort>)
    ensures result == FreshPeers(peers, existing)
  {
    var seen := {};
    result := [];
    assert peers[0..] == peers && existing + seen == existing;
    for i := 0 to |peers|
      invariant result + FreshPeers(peers[i..], existing + seen) == FreshPeers(peers, existing)
    {
      var peer := peers[i];
      assert peers[i..][1..] == peers[i + 1..];
      assert existing + seen + {peer} == existing + (seen + {peer});
      if peer.Usable() && peer !in existing && peer !in seen {
        seen := seen + {peer};
        result := result + [peer];
      }
    }
  }

  // -------------------------------------------------------------- operations

  function Sunk(s: SinkState, r: Result): (SinkState, bool) {
    var h, fresh_ := r.infoHash, FreshPeers(r.peers, {});
    if s.terminated || |s.waiting| >= s.maxLeeches || h in s.waiting || fresh_ == [] then (s, false)
    else (s.(waiting := s.waiting[h := fresh_[1..]], families := s.families[h := r.family],
             peers := s.peers[h := PeerSet(fresh_)],
             attempts := s.attempts + multiset{h}, accepted := s.accepted + multiset{h}), true)
  }

  function PeersAdded(s: SinkState, r: Result): (SinkState, bool) {
    var h := r.infoHash;
    if s.terminated || h !in s.waiting then (s, false) else
    var fresh_ := FreshPeers(r.peers, if h in s.peers then s.peers[h] else {});
    if fresh_ == [] then (s, false)
    else (s.(waiting := s.waiting[h := s.waiting[h] + fresh_],
             peers := s.peers[h := (if h in s.peers then s.peers[h] else {}) + PeerSet(fresh_)]), true)
  }

  /** Peers an attempt learns by peer exchange are queued as they come. */
  function PeersLearned(s: SinkState, h: InfoHash, peers: seq<AddrPort>): SinkState {
    if h !in s.waiting then s else s.(waiting := s.waiting[h := s.waiting[h] + peers])
  }

  function Dropped(s: SinkState, h: InfoHash): SinkState {
    s.(waiting := s.waiting - {h}, families := s.families - {h}, peers := s.peers - {h},
       attempts := s.attempts - multiset{h})
  }

  /** An attempt that ends without a callback taking effect. */
  function Gone(s: SinkState, h: InfoHash): SinkState {
    s.(attempts := s.attempts - multiset{h})
  }

  /** A finished download: what is sent to the drain, unless the sink is terminated. */
  function Flushed(s: SinkState, md: Metadata): (SinkState, Option<Metadata>) {
    var h := md.infoHash;
    if s.terminated then (Gone(s, h), None)
    else (Dropped(s, h).(drained := s.drained + multiset{h}),
          Some(md.(family := if h in s.families then s.families[h] else 0)))
  }

  /** A failed attempt past its termination check: next peer, or discard. The flag says discard. */
  function Failed(s: SinkState, h: InfoHash): (SinkState, bool) {
    if h in s.waiting && |s.waiting[h]| > 0
    then (s.(waiting := s.waiting[h := s.waiting[h][1..]]), false)
    else (Dropped(s, h).(discarded := s.discarded + multiset{h}), true)
  }

  /** onLeechError run without interruption: the termination check, then next peer or discard. */
  function LeechError(s: SinkState, h: InfoHash): (SinkState, bool) {
    if s.terminated then (Gone(s, h), false) else Failed(s, h)
  }

  // -------------------------------------------------------------- invariants

  ghost predicate SameKeys(s: SinkState) {
    s.waiting.Keys == s.families.Keys == s.peers.Keys
  }

  /** One infohash: at most one attempt, none without a map entry, exactly one until termination. */
  ghost predicate HashOk(s: SinkState, h: InfoHash) {
    && s.attempts[h] <= (if h in s.waiting then 1 else 0)
    && (!s.terminated && h in s.waiting ==> s.attempts[h] == 1)
    && s.accepted[h] == s.drained[h] + s.discarded[h] + if h in s.waiting then 1 else 0
  }

  ghost predicate Inv(s: SinkState) {
    && SameKeys(s)
    && (s.waiting == map[] || |s.waiting| <= s.maxLeeches)
    && forall h :: HashOk(s, h)
  }

  lemma SunkKeepsInv(s: SinkState, r: Result)
    requires Inv(s)
    ensures Inv(Sunk(s, r).0)
  {
    var s' := Sunk(s, r).0;
    forall h
      ensures HashOk(s', h)
    {
      assert HashOk(s, h);
    }
    if Sunk(s, r).1 {
      assert s'.waiting.Keys == s.waiting.Keys + {r.infoHash};
    }
  }

  lemma PeersAddedKeepsInv(s: SinkState, r: Result)
    requires Inv(s)
    ensures Inv(PeersAdded(s, r).0) && PeersAdded(s, r).0.waiting.Keys == s.waiting.Keys
  {
    var s' := PeersAdded(s, r).0;
    assert s'.waiting.Keys == s.waiting.Keys;
    assert |s'.waiting.Keys| == |s'.waiting| && |s.waiting.Keys| == |s.waiting|;
    forall h
      ensures HashOk(s', h)
    {
      assert HashOk(s, h);
    }
  }

  lemma PeersLearnedKeepsInv(s: SinkState, h: InfoHash, peers: seq<AddrPort>)
    requires Inv(s)
    ensures Inv(PeersLearned(s, h, peers)) && PeersLearned(s, h, peers).waiting.Keys == s.waiting.Keys
  {
    var s' := PeersLearned(s, h, peers);
    assert s'.waiting.Keys == s.waiting.Keys;
    assert |s'.waiting.Keys| == |s'.waiting| && |s.waiting.Keys| == |s.waiting|;
    forall g
      ensures HashOk(s', g)
    {
      assert HashOk(s, g);
    }
  }

  lemma FewerKeys(m: map<InfoHash, seq<AddrPort>>, h: InfoHash)
    ensures |m - {h}| <= |m|
  {
    assert (m - {h}).Keys == m.Keys - {h};
    assert |(m - {h}).Keys| == |m - {h}| && |m.Keys| == |m|;
  }

  lemma FlushedKeepsInv(s: SinkState, md: Metadata)
    requires Inv(s) && md.infoHash in s.attempts
    ensures Inv(Flushed(s, md).0)
    ensures !s.terminated ==> Flushed(s, md).0.waiting.Keys == s.waiting.Keys - {md.infoHash}
    ensures md.infoHash in s.waiting
  {
    var h, s' := md.infoHash, Flushed(s, md).0;
    assert HashOk(s, h);
    FewerKeys(s.waiting, h);
    forall g
      ensures HashOk(s', g)
    {
      assert HashOk(s, g);
    }
  }

  lemma FailedKeepsInv(s: SinkState, h: InfoHash)
    requires Inv(s) && h in s.attempts
    ensures Inv(Failed(s, h).0) && h in s.waiting
    ensures Failed(s, h).0.waiting.Keys == if Failed(s, h).1 then s.waiting.Keys - {h} else s.waiting.Keys
  {
    var s' := Failed(s, h).0;
    assert HashOk(s, h);
    FewerKeys(s.waiting, h);
    assert |s'.waiting.Keys| == |s'.waiting| && |s.waiting.Keys| == |s.waiting|;
    if !Failed(s, h).1 {
      assert s'.waiting.Keys == s.waiting.Keys;
    }
    forall g
      ensures HashOk(s', g)
    {
      assert HashOk(s, g);
    }
  }

  lemma GoneKeepsInv(s: SinkState, h: InfoHash)
    requires Inv(s) && s.terminated
    ensures Inv(Gone(s, h))
  {
    forall g
      ensures HashOk(Gone(s, h), g)
    {
      assert HashOk(s, g);
    }
  }

  lemma LeechErrorKeepsInv(s: SinkState, h: InfoHash)
    requires Inv(s) && h in s.attempts
    ensures Inv(LeechError(s, h).0) && h in s.waiting
  {
    assert HashOk(s, h);
    if s.terminated {
      GoneKeepsInv(s, h);
    } else {
      FailedKeepsInv(s, h);
    }
  }

  lemma TerminateKeepsInv(s: SinkState)
    requires Inv(s)
    ensures Inv(s.(terminated := true))
  {
    forall g
      ensures HashOk(s.(terminated := true), g)
    {
      assert HashOk(s, g);
    }
  }

  // ------------------------------------------------ what each operation does

  /** Everything the sink has about one infohash is as it was. */
  ghost predicate Untouched(s: SinkState, s': SinkState, g: InfoHash) {
    && (g in s'.waiting <==> g in s.waiting) && (g in s.waiting ==> s'.waiting[g] == s.waiting[g])
    && (g in s'.families <==> g in s.families) && (g in s.families ==> s'.families[g] == s.families[g])
    && (g in s'.peers <==> g in s.peers) && (g in s.peers ==> s'.peers[g] == s.peers[g])
    && s'.attempts[g] == s.attempts[g] && s'.accepted[g] == s.accepted[g]
    && s'.drained[g] == s.drained[g] && s'.discarded[g] == s.discarded[g]
  }

  /** A new sink runs, tracks nothing and has the limit it was given. */
  lemma NewIsEmpty(maxLeeches: int)
    ensures var s := New(maxLeeches);
            && Inv(s) && !s.terminated && s.maxLeeches == maxLeeches && s.waiting == map[]
            && s.attempts == s.accepted == s.drained == s.discarded == multiset{}
  {
    assert forall h :: HashOk(New(maxLeeches), h);
  }

  /** A running sink with room takes an infohash it does not track yet if one of its peers is usable. */
  lemma SinkDecides(s: SinkState, r: Result, g: InfoHash)
    ensures var (s', ok), h := Sunk(s, r), r.infoHash;
            && (ok <==> !s.terminated && |s.waiting| < s.maxLeeches && h !in s.waiting
                        && exists p :: p in r.peers && p.Usable())
            && (!ok ==> s' == s)
            && (ok ==>
                  && h in s'.waiting && [FreshPeers(r.peers, {})[0]] + s'.waiting[h] == FreshPeers(r.peers, {})
                  && h in s'.families && s'.families[h] == r.family
                  && h in s'.peers && (forall p :: p in s'.peers[h] <==> p in r.peers && p.Usable())
                  && s'.attempts[h] == s.attempts[h] + 1 && s'.accepted[h] == s.accepted[h] + 1)
            && (g != h ==> Untouched(s, s', g)) && s'.terminated == s.terminated && s'.maxLeeches == s.maxLeeches
  {
    FreshPeersAre(r.peers, {});
    var fresh_ := FreshPeers(r.peers, {});
    if fresh_ != [] {
      assert fresh_[0] in fresh_;
      assert [fresh_[0]] + fresh_[1..] == fresh_;
    }
  }

  /** A running sink queues usable peers that are new for a tracked infohash, behind those that wait. */
  lemma AddPeersDecides(s: SinkState, r: Result, g: InfoHash)
    requires SameKeys(s)
    ensures var (s', ok), h := PeersAdded(s, r), r.infoHash;
            && (ok <==> !s.terminated && h in s.waiting && h in s.peers
                        && exists p :: p in r.peers && p.Usable() && p !in s.peers[h])
            && (!ok ==> s' == s)
            && (ok ==>
                  && h in s'.waiting && s'.waiting[h] == s.waiting[h] + FreshPeers(r.peers, s.peers[h])
                  && h in s'.peers
                  && (forall p :: p in s'.peers[h] <==> p in s.peers[h] || (p in r.peers && p.Usable()))
                  && s'.families == s.families && s'.attempts == s.attempts)
            && (g != h ==> Untouched(s, s', g)) && s'.terminated == s.terminated
  {
    var h := r.infoHash;
    if h in s.waiting.Keys {
      FreshPeersAre(r.peers, s.peers[h]);
      if FreshPeers(r.peers, s.peers[h]) != [] {
        assert FreshPeers(r.peers, s.peers[h])[0] in FreshPeers(r.peers, s.peers[h]);
      }
    }
  }

  /** Exchanged peers go behind those waiting for a tracked infohash, and nowhere else. */
  lemma LearnDecides(s: SinkState, h: InfoHash, peers: seq<AddrPort>, g: InfoHash)
    ensures var s' := PeersLearned(s, h, peers);
            && (h in s.waiting ==> h in s'.waiting && s'.waiting[h] == s.waiting[h] + peers)
            && (h !in s.waiting ==> s' == s)
            && (g != h ==> Untouched(s, s', g)) && s'.terminated == s.terminated && s'.attempts == s.attempts
  {
  }

  /** A finished download ends its infohash and is sent on with the family kept for it; a late one is dropped. */
  lemma FlushDecides(s: SinkState, md: Metadata, g: InfoHash)
    requires Inv(s) && md.infoHash in s.attempts
    ensures var (s', send), h := Flushed(s, md), md.infoHash;
            && (s.terminated ==> send.None? && s'.waiting == s.waiting && s'.drained == s.drained)
            && (!s.terminated ==>
                  && send == Some(Metadata(h, if h in s.families then s.families[h] else 0, md.name))
                  && h !in s'.waiting && h !in s'.families && h !in s'.peers && s'.drained[h] == s.drained[h] + 1)
            && s'.attempts[h] == 0 && (g != h ==> Untouched(s, s', g))
  {
    assert HashOk(s, md.infoHash);
  }

  /**
   * A failed attempt in a running sink discards its infohash exactly when no peer waits for it,
   * and otherwise goes on with the first that does; in a terminated sink it just ends. No other
   * infohash is touched.
   */
  lemma FailureDecides(s: SinkState, h: InfoHash, g: InfoHash)
    requires Inv(s) && h in s.attempts
    ensures var (s', discard) := LeechError(s, h);
            && h in s.waiting
            && (discard <==> !s.terminated && s.waiting[h] == [])
            && (s.terminated ==> s'.waiting == s.waiting && s'.discarded == s.discarded && s'.attempts[h] == 0)
            && (!s.terminated && s.waiting[h] != [] ==>
                  && h in s'.waiting && [s.waiting[h][0]] + s'.waiting[h] == s.waiting[h]
                  && s'.attempts == s.attempts && s'.families == s.families && s'.peers == s.peers
                  && s'.discarded == s.discarded)
            && (discard ==>
                  && h !in s'.waiting && h !in s'.families && h !in s'.peers
                  && s'.attempts[h] == 0 && s'.discarded[h] == s.discarded[h] + 1)
            && (g != h ==> Untouched(s, s', g))
  {
    assert HashOk(s, h);
  }

  // ------------------------------------------------------- a whole download

  /** A number of failed attempts in a row, with nothing else happening to the sink. */
  function FailTimes(s: SinkState, h: InfoHash, n: nat): SinkState {
    if n == 0 then s else LeechError(FailTimes(s, h, n - 1), h).0
  }

  /** Failures use up the waiting peers from the front and change nothing else about the infohash. */
  lemma {:induction false} FailuresConsume(s: SinkState, h: InfoHash, n: nat)
    requires h in s.waiting && n <= |s.waiting[h]| && !s.terminated
    ensures var s' := FailTimes(s, h, n);
            && h in s'.waiting && s'.waiting[h] == s.waiting[h][n..]
            && s'.families == s.families && s'.terminated == s.terminated && s'.discarded == s.discarded
  {
    if n > 0 {
      FailuresConsume(s, h, n - 1);
      assert s.waiting[h][n - 1..][1..] == s.waiting[h][n..];
    }
  }

  /**
   * An accepted infohash is tried with each of its usable peers, in the order they came
   * and each once: after n failures the peers after the n-th are still to come, and it
   * is discarded by exactly as many failures as it has peers.
   */
  lemma EachPeerIsTried(s: SinkState, r: Result, n: nat)
    requires Sunk(s, r).1 && n <= |FreshPeers(r.peers, {})|
    ensures var h, fresh_, s' := r.infoHash, FreshPeers(r.peers, {}), FailTimes(Sunk(s, r).0, r.infoHash, n);
            && (n < |fresh_| ==> h in s'.waiting && s'.waiting[h] == fresh_[n + 1..] && s'.discarded == s.discarded)
            && (n == |fresh_| ==> h !in s'.waiting && s'.discarded == s.discarded + multiset{h})
  {
    var s1 := Sunk(s, r).0;
    if n < |FreshPeers(r.peers, {})| {
      FailuresConsume(s1, r.infoHash, n);
    } else {
      FailuresConsume(s1, r.infoHash, n - 1);
    }
  }

  /** What reaches the drain carries the address family of the result it was accepted with. */
  lemma DrainedFamily(s: SinkState, r: Result, n: nat, md: Metadata)
    requires Sunk(s, r).1 && n < |FreshPeers(r.peers, {})| && md.infoHash == r.infoHash
    ensures Flushed(FailTimes(Sunk(s, r).0, r.infoHash, n), md).1 == Some(md.(family := r.family))
  {
    FailuresConsume(Sunk(s, r).0, r.infoHash, n);
  }

  /** More results for a tracked infohash, and failures of its attempts. */
  datatype Turn = More(result: Result) | Failure

  function Played(s: SinkState, h: InfoHash, turns: seq<Turn>): SinkState {
    if turns == [] then s else
    var before := Played(s, h, turns[..|turns| - 1]);
    match turns[|turns| - 1]
    case More(r) => PeersAdded(before, r).0
    case Failure => LeechError(before, h).0
  }

  /** All peers the results about one infohash brought, in order. */
  function Brought(h: InfoHash, turns: seq<Turn>): seq<AddrPort> {
    if turns == [] then [] else
    Brought(h, turns[..|turns| - 1]) +
    match turns[|turns| - 1]
    case More(r) => if r.infoHash == h then r.peers else []
    case Failure => []
  }

  function Failures(turns: seq<Turn>): nat {
    if turns == [] then 0 else Failures(turns[..|turns| - 1]) + if turns[|turns| - 1].Failure? then 1 else 0
  }

  lemma {:induction false} FreshOfTwo(a: seq<AddrPort>, b: seq<AddrPort>, seen: set<AddrPort>)
    ensures FreshPeers(a + b, seen) == FreshPeers(a, seen) + FreshPeers(b, seen + PeerSet(FreshPeers(a, seen)))
  {
    if a == [] {
      assert [] + b == b && seen + PeerSet([]) == seen;
    } else {
      assert (a + b)[1..] == a[1..] + b;
      var first := a[0].Usable() && a[0] !in seen;
      var seen' := if first then seen + {a[0]} else seen;
      FreshOfTwo(a[1..], b, seen');
      var tail := FreshPeers(a[1..], seen');
      if first {
        assert seen + PeerSet([a[0]] + tail) == seen' + PeerSet(tail);
        assert [a[0]] + (tail + FreshPeers(b, seen' + PeerSet(tail))) ==
               [a[0]] + tail + FreshPeers(b, seen' + PeerSet(tail));
      }
    }
  }

  /** So far the infohash was tried with the first peers of those brought, and the others wait. */
  ghost predicate InOrder(s: SinkState, h: InfoHash, brought: seq<AddrPort>, failures: nat) {
    && !s.terminated && h in s.waiting && h in s.peers && failures < |FreshPeers(brought, {})|
    && s.waiting[h] == FreshPeers(brought, {})[failures + 1..] && s.peers[h] == PeerSet(FreshPeers(brought, {}))
  }

  lemma MoreKeepsOrder(s: SinkState, h: InfoHash, brought: seq<AddrPort>, failures: nat, r: Result)
    requires InOrder(s, h, brought, failures)
    ensures InOrder(PeersAdded(s, r).0, h, brought + if r.infoHash == h then r.peers else [], failures)
  {
    if r.infoHash == h {
      var old_, new_ := FreshPeers(brought, {}), FreshPeers(r.peers, s.peers[h]);
      FreshOfTwo(brought, r.peers, {});
      assert {} + PeerSet(old_) == PeerSet(old_);
      assert FreshPeers(brought + r.peers, {}) == old_ + new_;
      assert (old_ + new_)[failures + 1..] == old_[failures + 1..] + new_;
      assert PeerSet(old_ + new_) == PeerSet(old_) + PeerSet(new_);
      assert old_ + [] == old_;
    } else {
      assert brought + [] == brought;
    }
  }

  lemma FailureKeepsOrder(s: SinkState, h: InfoHash, brought: seq<AddrPort>, failures: nat)
    requires InOrder(s, h, brought, failures)
    ensures var s' := LeechError(s, h).0;
            && !s'.terminated
            && (h in s'.waiting ==> InOrder(s', h, brought, failures + 1))
            && (h !in s'.waiting <==> failures + 1 == |FreshPeers(brought, {})|)
  {
    assert FreshPeers(brought, {})[failures + 1..] == s.waiting[h];
  }

  /** Nothing but a new acceptance brings back an infohash that is no longer tracked. */
  lemma UntrackedStays(s: SinkState, h: InfoHash, turn: Turn)
    requires h !in s.waiting
    ensures h !in (match turn case More(r) => PeersAdded(s, r).0 case Failure => LeechError(s, h).0).waiting
  {
  }

  /**
   * However results with more peers and failures alternate after an infohash was accepted: as long
   * as it is tracked, its attempts have gone through the usable peers of all results in the order
   * they came, each once, one more than there were failures, and the rest of them wait.
   */
  lemma {:induction false} AllResultsAreTried(s: SinkState, r: Result, turns: seq<Turn>)
    requires Sunk(s, r).1 && r.infoHash in Played(Sunk(s, r).0, r.infoHash, turns).waiting
    ensures InOrder(Played(Sunk(s, r).0, r.infoHash, turns), r.infoHash,
                    r.peers + Brought(r.infoHash, turns), Failures(turns))
  {
    var h, s1 := r.infoHash, Sunk(s, r).0;
    if turns == [] {
      assert r.peers + [] == r.peers;
    } else {
      var front, turn := turns[..|turns| - 1], turns[|turns| - 1];
      if h !in Played(s1, h, front).waiting {
        UntrackedStays(Played(s1, h, front), h, turn);
      }
      AllResultsAreTried(s, r, front);
      TurnKeepsOrder(s1, h, r.peers, turns);
    }
  }

  lemma TurnKeepsOrder(s: SinkState, h: InfoHash, first: seq<AddrPort>, turns: seq<Turn>)
    requires turns != []
    requires var front := turns[..|turns| - 1];
             InOrder(Played(s, h, front), h, first + Brought(h, front), Failures(front))
    requires h in Played(s, h, turns).waiting
    ensures InOrder(Played(s, h, turns), h, first + Brought(h, turns), Failures(turns))
  {
    var front := turns[..|turns| - 1];
    var before, so := Played(s, h, front), first + Brought(h, front);
    match turns[|turns| - 1] {
      case More(r) =>
        MoreKeepsOrder(before, h, so, Failures(front), r);
        ConcatAssoc(first, Brought(h, front), if r.infoHash == h then r.peers else []);
      case Failure =>
        FailureKeepsOrder(before, h, so, Failures(front));
        assert Brought(h, turns) == Brought(h, front) + [] == Brought(h, front);
    }
  }

  // --------------------------------------------------------------- the class

  /** The program's fields; `model` adds the running attempts and the counts. */
  class Sink {
    const maxLeeches: int
    var terminated: bool
    var waiting: map<InfoHash, seq<AddrPort>>
    var families: map<InfoHash, int>
    var peers: map<InfoHash, set<AddrPort>>
    ghost var model: SinkState

    ghost predicate Valid()
      reads this
    {
      && Inv(model)
      && model.maxLeeches == maxLeeches && model.terminated == terminated
      && model.waiting == waiting && model.families == families && model.peers == peers
    }

    constructor (maxLeeches: int)
      ensures Valid() && model == New(maxLeeches)
    {
      this.maxLeeches := maxLeeches;
      terminated, waiting, families, peers := false, map[], map[], map[];
      model := New(maxLeeches);
    }

    /** Accept an infohash and start its first attempt. `start` is the peer it dials. */
    method SinkResult(r: Result) returns (ok: bool, start: Option<AddrPort>)
      requires Valid()
      modifies this
      ensures Valid() && (model, ok) == Sunk(old(model), r)
      ensures start == if ok then Some(FreshPeers(r.peers, {})[0]) else None
    {
      ghost var after := Sunk(model, r).0;
      assert Inv(after) by {
        SunkKeepsInv(model, r);
      }
      if terminated || |waiting| >= maxLeeches {
        return false, None;
      }
      var h := r.infoHash;
      var addrs := UniqueValidPeers(r.peers, {});
      if h in waiting || |addrs| == 0 {
        return false, None;
      }
      waiting := waiting[h := addrs[1..]];
      families := families[h := r.family];
      peers := peers[h := PeerSet(addrs)];
      model := after;
      return true, Some(addrs[0]);
    }

    /** Writing into the inner peer set needs it to exist; the invariant says it does. */
    method AddPeers(r: Result) returns (ok: bool)
      requires Valid()
      modifies this
      ensures Valid() && (model, ok) == PeersAdded(old(model), r)
    {
      ghost var after := PeersAdded(model, r).0;
      assert Inv(after) by {
        PeersAddedKeepsInv(model, r);
      }
      var h := r.infoHash;
      if terminated || h !in waiting {
        return false;
      }
      assert h in waiting.Keys && SameKeys(model);
      var addrs := UniqueValidPeers(r.peers, peers[h]);
      if |addrs| == 0 {
        return false;
      }
      peers := peers[h := peers[h] + PeerSet(addrs)];
      waiting := waiting[h := waiting[h] + addrs];
      model := after;
      return true;
    }

    method OnPeers(h: InfoHash, addrs: seq<AddrPort>)
      requires Valid()
      modifies this
      ensures Valid() && model == PeersLearned(old(model), h, addrs)
    {
      ghost var after := PeersLearned(model, h, addrs);
      assert Inv(after) by {
        PeersLearnedKeepsInv(model, h, addrs);
      }
      if h in waiting {
        waiting := waiting[h := waiting[h] + addrs];
      }
      model := after;
    }

    /** The three deletions. */
    method Delete(h: InfoHash)
      modifies this`waiting, this`families, this`peers
      ensures waiting == old(waiting) - {h} && families == old(families) - {h} && peers == old(peers) - {h}
    {
      waiting := waiting - {h};
      families := families - {h};
      peers := peers - {h};
    }

    /** Called by a running attempt that has the metadata. */
    method Flush(md: Metadata) returns (send: Option<Metadata>)
      requires Valid() && md.infoHash in model.attempts
      modifies this
      ensures Valid() && (model, send) == Flushed(old(model), md)
    {
      ghost var after := Flushed(model, md).0;
      assert Inv(after) by {
        FlushedKeepsInv(model, md);
      }
      var h := md.infoHash;
      if terminated {
        model := after;
        return None;
      }
      send := Some(md.(family := if h in families then families[h] else 0));
      Delete(h);
      model := after;
    }

    /** Called by a running attempt that failed. Either another attempt starts or the infohash is discarded. */
    method OnLeechError(h: InfoHash) returns (next: Option<AddrPort>, discard: bool)
      requires Valid() && h in model.attempts
      modifies this
      ensures Valid() && (model, discard) == LeechError(old(model), h)
      ensures next == if discard || old(terminated) then None else Some(old(waiting)[h][0])
    {
      ghost var after := LeechError(model, h).0;
      assert Inv(after) && h in waiting by {
        LeechErrorKeepsInv(model, h);
      }
      if terminated {
        model := after;
        return None, false;
      }
      if h in waiting && |waiting[h]| > 0 {
        next, discard := Some(waiting[h][0]), false;
        waiting := waiting[h := waiting[h][1..]];
      } else {
        next, discard := None, true;
        Delete(h);
      }
      model := after;
    }

    method Terminate()
      requires Valid()
      modifies this`terminated, this`model
      ensures Valid() && model == old(model).(terminated := true)
    {
      TerminateKeepsInv(model);
      terminated := true;
      model := model.(terminated := true);
    }
  }
}
