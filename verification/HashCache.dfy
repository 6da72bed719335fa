/** The process-wide memory of infohashes already in flight or recently handed over. */
module HashCache {
  import opened Basics

  const MAX_EXPIRING := 100_000

  datatype CacheState = CacheState(known: set<InfoHash>, expiry: map<InfoHash, int>)
  {
    /** Known without an end date: exactly the infohashes still in flight. */
    ghost function Pinned(): set<InfoHash> { known - expiry.Keys }
  }

  function Forgotten(c: CacheState, h: InfoHash): CacheState {
    CacheState(c.known - {h}, c.expiry - {h})
  }

  /** InfoHashCacheAdd: an entry past its end date counts as absent. True means newly added. */
  function Added(c: CacheState, h: InfoHash, now: int): (CacheState, bool) {
    var c1 := if h in c.expiry && c.expiry[h] <= now then Forgotten(c, h) else c;
    (c1.(known := c1.known + {h}), h !in c1.known)
  }

  function Expired(c: CacheState, now: int): set<InfoHash> {
    set h | h in c.expiry && c.expiry[h] <= now
  }

  function Swept(c: CacheState, now: int): CacheState {
    CacheState(c.known - Expired(c, now), c.expiry - Expired(c, now))
  }

  /** The table after the first eviction loop, which a full table goes through. */
  function MadeRoom(c: CacheState, now: int): CacheState {
    if |c.expiry| >= MAX_EXPIRING then Swept(c, now) else c
  }

  /** Can the second eviction loop, if it is entered, meet this key first? */
  predicate Meets(c: CacheState, h: InfoHash, now: int, victim: InfoHash) {
    h in c.known && |MadeRoom(c, now).expiry| >= MAX_EXPIRING ==> victim in MadeRoom(c, now).expiry
  }

  /** InfoHashCacheExpireAfter; `victim` is the key the second eviction loop happens to meet. */
  function ExpiringAfter(c: CacheState, h: InfoHash, now: int, ttl: int, victim: InfoHash): CacheState
    requires Meets(c, h, now, victim)
  {
    if h !in c.known then c else
    var c1 := MadeRoom(c, now);
    var c2 := if |c1.expiry| >= MAX_EXPIRING then Forgotten(c1, victim) else c1;
    c2.(expiry := c2.expiry[h := now + ttl])
  }

  /** An infohash with an end date is known. */
  ghost predicate Ok(c: CacheState, h: InfoHash) {
    h in c.expiry ==> h in c.known
  }

  /** Every end date belongs to a known infohash. */
  ghost predicate Inv(c: CacheState) {
    forall h :: Ok(c, h)
  }

  /** An add makes at most its own infohash in flight, and only one that was not. */
  lemma AddPins(c: CacheState, h: InfoHash, now: int, g: InfoHash)
    requires Ok(c, g)
    ensures var (c', added) := Added(c, h, now);
            && Ok(c', g)
            && (added && g == h ==> g !in c.Pinned())
            && (g in c'.Pinned() <==> g in c.Pinned() || (added && g == h))
            && (!added ==> c' == c)
  {
  }

  lemma RemoveUnpins(c: CacheState, h: InfoHash, g: InfoHash)
    requires Ok(c, g)
    ensures Ok(Forgotten(c, h), g)
    ensures g in Forgotten(c, h).Pinned() <==> g in c.Pinned() && g != h
  {
  }

  /**
   * An end date ends the flight of just its own infohash, whatever is evicted to make room.
   * Other infohashes keep what they had even where the call is about one not in flight.
   */
  lemma ExpireUnpins(c: CacheState, h: InfoHash, now: int, ttl: int, victim: InfoHash, g: InfoHash)
    requires Meets(c, h, now, victim) && Ok(c, g)
    requires g == h ==> h in c.Pinned()
    ensures var c' := ExpiringAfter(c, h, now, ttl, victim);
            Ok(c', g) && (g in c'.Pinned() <==> g in c.Pinned() && g != h)
  {
    SweepKeeps(c, now, g);
    RemoveUnpins(MadeRoom(c, now), victim, g);
  }

  lemma SweepKeeps(c: CacheState, now: int, g: InfoHash)
    requires Ok(c, g)
    ensures Ok(Swept(c, now), g)
    ensures g in Swept(c, now).Pinned() <==> g in c.Pinned()
    ensures g in Swept(c, now).expiry ==> g in c.expiry
  {
  }

  /** Is the infohash itself evicted while room is made for its own end date? */
  ghost predicate EvictsItself(c: CacheState, h: InfoHash, now: int, victim: InfoHash) {
    && h in c.expiry && |c.expiry| >= MAX_EXPIRING
    && (c.expiry[h] <= now || (|Swept(c, now).expiry| >= MAX_EXPIRING && victim == h))
  }

  /**
   * For a known infohash the end dates stay within the known ones exactly when it is not
   * evicted by its own call, which takes an end date it already had and a full table.
   */
  lemma ExpiryStaysKnown(c: CacheState, h: InfoHash, now: int, ttl: int, victim: InfoHash)
    requires Inv(c) && h in c.known && Meets(c, h, now, victim)
    ensures Inv(ExpiringAfter(c, h, now, ttl, victim)) <==> !EvictsItself(c, h, now, victim)
  {
    var c' := ExpiringAfter(c, h, now, ttl, victim);
    forall g
      ensures Ok(c', g) <==> !(g == h && EvictsItself(c, h, now, victim))
    {
      assert Ok(c, g);
    }
    assert Ok(c', h) <==> !EvictsItself(c, h, now, victim);
  }

  lemma KeysAreCounted(expiry: map<InfoHash, int>)
    ensures |expiry.Keys| == |expiry|
  {
  }

  /** There are never more end dates than the table is meant to hold. */
  lemma EndDatesAreBounded(c: CacheState, h: InfoHash, now: int, ttl: int, victim: InfoHash)
    requires Meets(c, h, now, victim) && |c.expiry| <= MAX_EXPIRING
    ensures |ExpiringAfter(c, h, now, ttl, victim).expiry| <= MAX_EXPIRING
  {
    var c1 := MadeRoom(c, now);
    SubsetSize(Swept(c, now).expiry.Keys, c.expiry.Keys);
    KeysAreCounted(Swept(c, now).expiry);
    KeysAreCounted(c.expiry);
    if |c1.expiry| >= MAX_EXPIRING && h in c.known {
      var c2 := Forgotten(c1, victim);
      assert c1.expiry.Keys == c2.expiry.Keys + {victim};
      KeysAreCounted(c1.expiry);
      KeysAreCounted(c2.expiry);
    }
  }

  // --------------------------------------------- one infohash's point of view

  /** What the cache knows of an infohash. */
  datatype Status = Unknown | InFlight | Until(at: int)

  function StatusOf(c: CacheState, h: InfoHash): Status {
    if h !in c.known then Unknown else if h in c.expiry then Until(c.expiry[h]) else InFlight
  }

  /** An unknown infohash, or one past its end date, is taken and is in flight then; the others stay as they are. */
  lemma AddDecides(c: CacheState, h: InfoHash, now: int, g: InfoHash)
    requires Ok(c, h) && Ok(c, g)
    ensures var (c', added) := Added(c, h, now);
            && (added <==> StatusOf(c, h) == Unknown || (StatusOf(c, h).Until? && StatusOf(c, h).at <= now))
            && StatusOf(c', g) == if g == h && added then InFlight else StatusOf(c, g)
  {
  }

  lemma RemoveForgets(c: CacheState, h: InfoHash, g: InfoHash)
    ensures StatusOf(Forgotten(c, h), g) == if g == h then Unknown else StatusOf(c, g)
  {
  }

  /** Does making room for another end date drop this infohash? A sweep does, and the one eviction after it. */
  ghost predicate MakesWay(c: CacheState, g: InfoHash, now: int, victim: InfoHash) {
    && |c.expiry| >= 100_000 && g in c.expiry
    && (c.expiry[g] <= now || (|Swept(c, now).expiry| >= 100_000 && victim == g))
  }

  /** A known infohash gets the end date now + ttl; others become unknown if they make way, else stay as they are. */
  lemma ExpireDecides(c: CacheState, h: InfoHash, now: int, ttl: int, victim: InfoHash, g: InfoHash)
    requires Ok(c, h) && Ok(c, g) && Meets(c, h, now, victim)
    ensures var c' := ExpiringAfter(c, h, now, ttl, victim);
            && (StatusOf(c, h) == Unknown ==> c' == c)
            && (StatusOf(c, h) != Unknown ==> h in c'.expiry && c'.expiry[h] == now + ttl)
            && (StatusOf(c, h) != Unknown && !MakesWay(c, h, now, victim) ==> StatusOf(c', h) == Until(now + ttl))
            && (StatusOf(c, h) != Unknown && g != h ==>
                  StatusOf(c', g) == if MakesWay(c, g, now, victim) then Unknown else StatusOf(c, g))
  {
    SweepDecides(c, now, g);
    SweepDecides(c, now, h);
  }

  lemma SweepDecides(c: CacheState, now: int, g: InfoHash)
    requires Ok(c, g)
    ensures StatusOf(Swept(c, now), g) ==
            if StatusOf(c, g).Until? && StatusOf(c, g).at <= now then Unknown else StatusOf(c, g)
  {
  }

  // ------------------------------------------------- a call that evicts itself

  /** The n-th of many infohashes of 20 bytes. */
  function Numbered(n: nat): InfoHash
    requires n < 0x100_0000
  {
    [n / 0x1_0000, n / 0x100 % 0x100, n % 0x100] + seq(17, _ => 0)
  }

  function NumberOf(h: InfoHash): int
    requires |h| == 20
  {
    h[0] as int * 0x1_0000 + h[1] as int * 0x100 + h[2] as int
  }

  lemma NumberedDiffer(m: nat, n: nat)
    requires m < n < 0x100_0000
    ensures Numbered(m) != Numbered(n)
  {
    NumberOfNumbered(m);
    NumberOfNumbered(n);
  }

  lemma NumberOfNumbered(n: nat)
    requires n < 0x100_0000
    ensures NumberOf(Numbered(n)) == n
  {
  }

  /** n infohashes with one end date. */
  function Many(n: nat, at: int): (expiry: map<InfoHash, int>)
    requires n < 0x100_0000
    ensures |expiry| == n
    ensures forall h :: h in expiry <==> exists i: nat :: i < n && h == Numbered(i)
    ensures forall h :: h in expiry ==> expiry[h] == at
  {
    if n == 0 then map[] else
    var fewer := Many(n - 1, at);
    assert Numbered(n - 1) !in fewer by {
      forall i: nat | i < n - 1
        ensures Numbered(i) != Numbered(n - 1)
      {
        NumberedDiffer(i, n - 1);
      }
    }
    fewer[Numbered(n - 1) := at]
  }

  /**
   * It can happen, both ways: in a full table that holds the infohash, its old end date may be
   * over, or none is over and the second eviction meets it. Either way it has an end date
   * afterwards and is not known.
   */
  lemma SelfEvictionHappens(now: int, ttl: int, over: bool)
    ensures var expiry := Many(MAX_EXPIRING, if over then now else now + 1);
            var c, h := CacheState(expiry.Keys, expiry), Numbered(0);
            && Inv(c) && h in c.known && Meets(c, h, now, h) && EvictsItself(c, h, now, h)
            && !Inv(ExpiringAfter(c, h, now, ttl, h))
  {
    var expiry := Many(MAX_EXPIRING, if over then now else now + 1);
    var c, h := CacheState(expiry.Keys, expiry), Numbered(0);
    assert h in c.expiry;
    SweepOfAlike(c, now, over);
    ExpiryStaysKnown(c, h, now, ttl, h);
  }

  /** When all end dates agree, a sweep removes everything or nothing. */
  lemma SweepOfAlike(c: CacheState, now: int, over: bool)
    requires forall h :: h in c.expiry ==> (c.expiry[h] <= now <==> over)
    ensures Swept(c, now).expiry == if over then map[] else c.expiry
  {
  }

  class InfoHashCache {
    var known: set<InfoHash>
    var expiry: map<InfoHash, int>

    function View(): CacheState
      reads this
    {
      CacheState(known, expiry)
    }

    constructor ()
      ensures View() == CacheState({}, map[])
    {
      known, expiry := {}, map[];
    }

    method Add(h: InfoHash, now: int) returns (added: bool)
      modifies this
      ensures (View(), added) == Added(old(View()), h, now)
      ensures added <==> old(h !in known || (h in expiry && expiry[h] <= now))
    {
      if h in expiry && expiry[h] <= now {
        expiry := expiry - {h};
        known := known - {h};
      }
      added := h !in known;
      known := known + {h};
    }

    method Remove(h: InfoHash)
      modifies this
      ensures View() == Forgotten(old(View()), h)
    {
      expiry := expiry - {h};
      known := known - {h};
    }

    /** The deleting loop over all end dates. */
    method Sweep(now: int)
      modifies this
      ensures View() == Swept(old(View()), now)
    {
      var todo := expiry.Keys;
      ghost var gone := {};
      while todo != {}
        invariant todo <= expiry.Keys && gone !! expiry.Keys
        invariant expiry == old(expiry) - gone && known == old(known) - gone
        invariant forall h :: h in old(expiry) && h !in todo ==> (h in gone <==> old(expiry)[h] <= now)
        invariant gone <= old(expiry).Keys
        decreases todo
      {
        var h :| h in todo;
        todo := todo - {h};
        if expiry[h] <= now {
          expiry := expiry - {h};
          known := known - {h};
          gone := gone + {h};
        }
      }
      assert gone == Expired(old(View()), now);
    }

    method ExpireAfter(h: InfoHash, now: int, ttl: int) returns (ghost victim: InfoHash)
      modifies this
      ensures Meets(old(View()), h, now, victim)
      ensures View() == ExpiringAfter(old(View()), h, now, ttl, victim)
      ensures old(|expiry|) <= MAX_EXPIRING ==> |expiry| <= MAX_EXPIRING
    {
      ghost var was := View();
      victim := h;
      if h !in known {
        return;
      }
      if |expiry| >= MAX_EXPIRING {
        Sweep(now);
      }
      if |expiry| >= MAX_EXPIRING {
        assert expiry.Keys != {};
        var k :| k in expiry.Keys;
        victim := k;
        expiry := expiry - {k};
        known := known - {k};
      }
      expiry := expiry[h := now + ttl];
      if |was.expiry| <= MAX_EXPIRING {
        EndDatesAreBounded(was, h, now, ttl, victim);
      }
    }
  }
}
