/**
 * Compact peers (BEP 5, BEP 32): address and big-endian port; compact nodes: a 20-byte
 * ID in front. Lists are plain concatenations, so their decoders must know or guess the
 * size of one entry.
 */
module CompactCodec {
  import opened Basics
  import opened NetAddr

  datatype Result<+T> = Ok(value: T) | Err

  datatype Node = Node(id: seq<byte>, addr: AddrPort)

  function Port(p: port16): (b: seq<byte>)
    ensures |b| == 2
  {
    [p / 256, p % 256]
  }

  function ReadPort(b: seq<byte>): port16
    requires |b| == 2
  {
    var hi: int, lo: int := b[0], b[1];
    256 * hi + lo
  }

  lemma PortRoundTrip(p: port16)
    ensures ReadPort(Port(p)) == p
  {
    var n: int := p;
    assert n == 256 * (n / 256) + n % 256;
  }

  // --------------------------------------------------------- single entries

  /** CompactPeer.MarshalBinary; an invalid address gives nothing. */
  function EncodePeer(a: AddrPort): seq<byte> {
    if !a.IsValid() then [] else a.addr.AsSlice() + Port(a.port)
  }

  /** CompactPeer.UnmarshalBinary. */
  function DecodePeer(b: seq<byte>): Result<AddrPort> {
    if |b| != 18 && |b| != 6 then Err else
    match AddrFromSlice(b[..|b| - 2])
    case None => Err
    case Some(ip) => Ok(AddrPort(ip.Unmap(), ReadPort(b[|b| - 2..])))
  }

  /** CompactNodeInfo.MarshalBinary: the ID is cut or padded to 20 bytes. */
  function EncodeNode(n: Node): seq<byte> {
    if !n.addr.IsValid() then [] else Fit(n.id, 20) + EncodePeer(n.addr)
  }

  /** CompactNodeInfo.UnmarshalBinary. */
  function DecodeNode(b: seq<byte>): Result<Node> {
    if |b| != 26 && |b| != 38 then Err else
    match AddrFromSlice(b[20..|b| - 2])
    case None => Err
    case Some(ip) => Ok(Node(b[..20], AddrPort(ip.Unmap(), ReadPort(b[|b| - 2..]))))
  }

  /** Encoded length of an address with its port. */
  function PeerSize(a: AddrPort): nat {
    match a.addr case NoAddr => 0 case V4(_) => 6 case V6(_) => 18
  }

  /** A peer survives encoding exactly when its address is valid and not an IPv4-mapped one. */
  lemma PeerRoundTrip(a: AddrPort)
    ensures |EncodePeer(a)| == PeerSize(a)
    ensures DecodePeer(EncodePeer(a)) == Ok(a) <==> a.IsValid() && !a.addr.Is4In6()
  {
    if a.IsValid() {
      var ip := a.addr.AsSlice();
      PortRoundTrip(a.port);
      assert EncodePeer(a)[..|ip|] == ip && EncodePeer(a)[|ip|..] == Port(a.port);
      assert AddrFromSlice(ip) == Some(a.addr);
    }
  }

  /** A node survives encoding exactly when, besides, its ID has 20 bytes. */
  lemma NodeRoundTrip(n: Node)
    ensures |EncodeNode(n)| == if n.addr.IsValid() then 20 + PeerSize(n.addr) else 0
    ensures DecodeNode(EncodeNode(n)) == Ok(n) <==> n.addr.IsValid() && !n.addr.addr.Is4In6() && |n.id| == 20
  {
    if n.addr.IsValid() {
      PeerRoundTrip(n.addr);
      var id, ip, b := Fit(n.id, 20), n.addr.addr.AsSlice(), EncodeNode(n);
      assert b == id + (ip + Port(n.addr.port));
      assert b[..20] == id && b[20..|b| - 2] == ip && b[|b| - 2..] == Port(n.addr.port);
      assert AddrFromSlice(ip) == Some(n.addr.addr);
    }
  }

  /** On the wire: four bytes of IPv4 or sixteen of IPv6 address, then the port, high byte first. */
  lemma PeerLayout(a: AddrPort)
    requires a.IsValid()
    ensures var b, n := EncodePeer(a), if a.addr.V4? then 4 else 16;
            && |b| == n + 2
            && b[..n] == (if a.addr.V4? then a.addr.octets4 else a.addr.octets16)
            && 256 * b[n] as int + b[n + 1] as int == a.port
  {
    var ip := a.addr.AsSlice();
    PortRoundTrip(a.port);
    assert EncodePeer(a)[..|ip|] == ip && EncodePeer(a)[|ip|..] == Port(a.port);
    assert EncodePeer(a)[|ip|] == Port(a.port)[0] && EncodePeer(a)[|ip| + 1] == Port(a.port)[1];
  }

  /** A node is its ID, cut to 20 bytes or filled up with zeros, in front of its peer. */
  lemma NodeLayout(n: Node)
    requires n.addr.IsValid()
    ensures |EncodeNode(n)| >= 20 && EncodeNode(n)[20..] == EncodePeer(n.addr)
    ensures forall i :: 0 <= i < 20 ==> EncodeNode(n)[i] == if i < |n.id| then n.id[i] else 0
  {
    var id := Fit(n.id, 20);
    assert EncodeNode(n) == id + EncodePeer(n.addr);
  }

  /** A peer string has 6 or 18 bytes; a node string 20 more. */
  lemma DecodeBySize(b: seq<byte>)
    ensures DecodePeer(b).Ok? <==> |b| == 6 || |b| == 18
    ensures DecodeNode(b).Ok? <==> |b| == 26 || |b| == 38
  {
  }

  // ------------------------------------------------------------------- lists

  function EncodeNodes(nodes: seq<Node>): seq<byte> {
    if nodes == [] then [] else EncodeNode(nodes[0]) + EncodeNodes(nodes[1..])
  }

  function EncodePeers(peers: seq<AddrPort>): seq<byte> {
    if peers == [] then [] else EncodePeer(peers[0]) + EncodePeers(peers[1..])
  }

  /** A decoded entry in front of a decoded list; a failure anywhere is a failure. */
  function Cons<T>(first: Result<T>, rest: Result<seq<T>>): Result<seq<T>> {
    if first.Ok? && rest.Ok? then Ok([first.value] + rest.value) else Err
  }

  /** Decode a raw string cut into entries of one size. */
  function DecodeNodeChunks(raw: seq<byte>, size: nat): Result<seq<Node>>
    requires size > 0
    decreases |raw|
  {
    if |raw| < size then Ok([]) else Cons(DecodeNode(raw[..size]), DecodeNodeChunks(raw[size..], size))
  }

  function DecodePeerChunks(raw: seq<byte>, size: nat): Result<seq<AddrPort>>
    requires size > 0
    decreases |raw|
  {
    if |raw| < size then Ok([]) else Cons(DecodePeer(raw[..size]), DecodePeerChunks(raw[size..], size))
  }

  /** unmarshalCompactNodeInfosBencode, for the `nodes` (26) and `nodes6` (38) fields. */
  function DecodeTyped(raw: seq<byte>, size: nat): Result<seq<Node>>
    requires size > 0
  {
    if |raw| % size != 0 then Err else DecodeNodeChunks(raw, size)
  }

  /** UnmarshalCompactNodeInfos: the entry size is guessed from the length, 26 before 38. */
  function DecodeUntyped(raw: seq<byte>): Result<seq<Node>> {
    if |raw| == 0 then Ok([])
    else if |raw| % 26 == 0 then DecodeNodeChunks(raw, 26)
    else if |raw| % 38 == 0 then DecodeNodeChunks(raw, 38)
    else Err
  }

  /** UnmarshalCompactPeers: 6 before 18. */
  function DecodePeers(raw: seq<byte>): Result<seq<AddrPort>> {
    if |raw| == 0 then Ok([])
    else if |raw| % 6 == 0 then DecodePeerChunks(raw, 6)
    else if |raw| % 18 == 0 then DecodePeerChunks(raw, 18)
    else Err
  }

  /** What a decoder can give back: a valid address of the right family, not mapped, a 20-byte ID. */
  predicate Sendable(n: Node, size: nat) {
    |n.id| == 20 && !n.addr.addr.Is4In6() && ((size == 26 && n.addr.addr.V4?) || (size == 38 && n.addr.addr.V6?))
  }

  lemma {:induction false} ChunksRoundTrip(nodes: seq<Node>, size: nat)
    requires size == 26 || size == 38
    requires forall n :: n in nodes ==> Sendable(n, size)
    ensures |EncodeNodes(nodes)| == size * |nodes|
    ensures DecodeNodeChunks(EncodeNodes(nodes), size) == Ok(nodes)
  {
    if nodes != [] {
      var raw, first, rest := EncodeNodes(nodes), EncodeNode(nodes[0]), EncodeNodes(nodes[1..]);
      assert nodes[0] in nodes;
      NodeRoundTrip(nodes[0]);
      ChunksRoundTrip(nodes[1..], size);
      assert raw[..size] == first && raw[size..] == rest;
      assert [nodes[0]] + nodes[1..] == nodes;
    }
  }

  /** A typed list of any length decodes to exactly what was encoded. */
  lemma TypedRoundTrip(nodes: seq<Node>, size: nat)
    requires size == 26 || size == 38
    requires forall n :: n in nodes ==> Sendable(n, size)
    ensures DecodeTyped(EncodeNodes(nodes), size) == Ok(nodes)
  {
    ChunksRoundTrip(nodes, size);
    WholeEntries(EncodeNodes(nodes), size, |nodes|);
  }

  lemma WholeEntries(raw: seq<byte>, size: nat, k: nat)
    requires size == 26 || size == 38
    requires |raw| == size * k
    ensures DecodeTyped(raw, size) == DecodeNodeChunks(raw, size)
  {
    var n := |raw|;
    if size == 26 {
      assert n == 26 * k && n % 26 == 0;
    } else {
      assert n == 38 * k && n % 38 == 0;
    }
  }

  /** Typed lists are accepted exactly in whole entries, and give one node an entry. */
  lemma TypedBySize(raw: seq<byte>, size: nat)
    requires size == 26 || size == 38
    ensures DecodeTyped(raw, size).Ok? <==> |raw| % size == 0
    ensures DecodeTyped(raw, size).Ok? ==> |DecodeTyped(raw, size).value| == |raw| / size
  {
    if |raw| % size == 0 {
      if size == 26 {
        ChunksAreOk(raw, 26, |raw| / 26);
      } else {
        ChunksAreOk(raw, 38, |raw| / 38);
      }
    }
  }

  lemma {:induction false} ChunksAreOk(raw: seq<byte>, size: nat, k: nat)
    requires (size == 26 && |raw| == 26 * k) || (size == 38 && |raw| == 38 * k)
    ensures DecodeNodeChunks(raw, size).Ok? && |DecodeNodeChunks(raw, size).value| == k
    decreases k
  {
    if k > 0 {
      DecodeBySize(raw[..size]);
      ChunksAreOk(raw[size..], size, k - 1);
    }
  }

  /** The guessing decoder refuses exactly what neither size divides. */
  lemma UntypedBySize(raw: seq<byte>)
    ensures DecodeUntyped(raw).Ok? <==> |raw| % 26 == 0 || |raw| % 38 == 0
  {
    TypedBySize(raw, 26);
    TypedBySize(raw, 38);
  }

  /** Every 26 bytes are the encoding of an IPv4 node. */
  lemma DecodesAll4(b: seq<byte>)
    requires |b| == 26
    ensures DecodeNode(b).Ok? && Sendable(DecodeNode(b).value, 26) && EncodeNode(DecodeNode(b).value) == b
  {
    var port := b[24..];
    assert port == Port(ReadPort(port)) by {
      var hi: int, lo: int := port[0], port[1];
      assert (256 * hi + lo) / 256 == hi && (256 * hi + lo) % 256 == lo;
    }
    assert b == b[..20] + (b[20..24] + port);
  }

  /** The other way round for IPv4: every raw string of whole entries decodes, and encodes back to itself. */
  lemma {:induction false} TypedDecodesAll4(raw: seq<byte>, k: nat)
    requires |raw| == 26 * k
    ensures var r := DecodeNodeChunks(raw, 26);
            && r.Ok? && |r.value| == k
            && (forall n :: n in r.value ==> Sendable(n, 26))
            && EncodeNodes(r.value) == raw
  {
    if k > 0 {
      TypedDecodesAll4(raw[26..], k - 1);
      DecodesAll4(raw[..26]);
      assert raw == raw[..26] + raw[26..];
      var n, rest := DecodeNode(raw[..26]).value, DecodeNodeChunks(raw[26..], 26).value;
      assert ([n] + rest)[1..] == rest;
    }
  }

  lemma {:induction false} ChunkCount26(raw: seq<byte>)
    ensures DecodeNodeChunks(raw, 26).Ok? ==> |DecodeNodeChunks(raw, 26).value| == |raw| / 26
    decreases |raw|
  {
    if |raw| >= 26 {
      ChunkCount26(raw[26..]);
    }
  }

  /** Guessing the entry size brings back every list of IPv4 nodes. */
  lemma UntypedRoundTrip4(nodes: seq<Node>)
    requires forall n :: n in nodes ==> Sendable(n, 26)
    ensures DecodeUntyped(EncodeNodes(nodes)) == Ok(nodes)
  {
    ChunksRoundTrip(nodes, 26);
    Guess26(EncodeNodes(nodes), |nodes|);
  }

  /** The guess on k entries of 26 bytes. */
  lemma Guess26(raw: seq<byte>, k: nat)
    requires |raw| == 26 * k
    ensures DecodeUntyped(raw) == if k == 0 then Ok([]) else DecodeNodeChunks(raw, 26)
  {
    var n := |raw|;
    assert n == 26 * k && n % 26 == 0;
  }

  /** The guess on k entries of 38 bytes. */
  lemma Guess38(raw: seq<byte>, k: nat)
    requires |raw| == 38 * k
    ensures DecodeUntyped(raw) ==
            if k == 0 then Ok([]) else if k % 13 == 0 then DecodeNodeChunks(raw, 26) else DecodeNodeChunks(raw, 38)
  {
    var n := |raw|;
    Multiples(k, n);
    MultipleOf38(k, n);
  }

  /** It brings back a list of IPv6 nodes exactly when their number is not a positive multiple of 13. */
  lemma UntypedRoundTrip6(nodes: seq<Node>)
    requires forall n :: n in nodes ==> Sendable(n, 38)
    ensures DecodeUntyped(EncodeNodes(nodes)) == Ok(nodes) <==> nodes == [] || |nodes| % 13 != 0
  {
    ChunksRoundTrip(nodes, 38);
    Guess38(EncodeNodes(nodes), |nodes|);
    GuessedBack(EncodeNodes(nodes), nodes);
  }

  /** The larger guess is right, the smaller one is wrong whenever it is made. */
  lemma GuessedBack(raw: seq<byte>, nodes: seq<Node>)
    requires |raw| == 38 * |nodes|
    ensures nodes != [] && |nodes| % 13 == 0 ==> DecodeNodeChunks(raw, 26) != Ok(nodes)
  {
    if nodes != [] && |nodes| % 13 == 0 {
      TooMany(raw, |nodes|);
    }
  }

  /** Read in pieces of 26 bytes, thirteen or more entries of 38 bytes come out as more than they are. */
  lemma TooMany(raw: seq<byte>, k: nat)
    requires |raw| == 38 * k && k >= 13
    ensures DecodeNodeChunks(raw, 26).Ok? ==> |DecodeNodeChunks(raw, 26).value| > k
  {
    ChunkCount26(raw);
    Quotient(|raw|, k);
  }

  lemma Quotient(n: nat, k: nat)
    requires n >= 26 * (k + 1)
    ensures n / 26 > k
  {
  }

  lemma Multiples(k: nat, n: nat)
    requires n == 38 * k
    ensures n % 26 == 0 <==> k % 13 == 0
  {
    if n % 26 == 0 {
      MultipleOf13(k, 3 * k - 2 * (n / 26));
    }
    if k % 13 == 0 {
      MultipleOf26(n, 19 * (k / 13));
    }
  }

  lemma MultipleOf13(k: nat, q: int)
    requires k == 13 * q
    ensures k % 13 == 0
  {
  }

  lemma MultipleOf26(n: nat, q: int)
    requires n == 26 * q
    ensures n % 26 == 0
  {
  }

  lemma MultipleOf38(k: nat, n: nat)
    requires n == 38 * k
    ensures n % 38 == 0
  {
  }

  // ------------------------------------------------------------------- peers

  /** parsePeers, for the peer lists of peer exchange: trailing bytes are ignored. */
  function ParsePeers(s: seq<byte>): seq<AddrPort> {
    if |s| < 6 then [] else
    [AddrPort(V4(s[..4]), ReadPort(s[4..6]))] + ParsePeers(s[6..])
  }

  lemma {:induction false} PeerChunks6(raw: seq<byte>)
    ensures DecodePeerChunks(raw, 6) == Ok(ParsePeers(raw))
    decreases |raw|
  {
    if |raw| >= 6 {
      PeerChunks6(raw[6..]);
      assert raw[..6][..4] == raw[..4] && raw[..6][4..] == raw[4..6];
    }
  }

  /**
   * The 18-byte case is never reached: a length divisible by 18 is divisible by 6. So the
   * decoder accepts exactly the lengths divisible by 6 and reads them as parsePeers does.
   */
  lemma DecodePeersIsParsePeers(raw: seq<byte>)
    ensures |raw| % 18 == 0 ==> |raw| % 6 == 0
    ensures DecodePeers(raw) == if |raw| % 6 == 0 then Ok(ParsePeers(raw)) else Err
  {
    PeerChunks6(raw);
    Divisible(|raw|);
  }

  lemma Divisible(n: nat)
    ensures n % 18 == 0 ==> n % 6 == 0
  {
    if n % 18 == 0 {
      var q := n / 18;
      assert n == 6 * (3 * q);
    }
  }

  lemma {:induction false} ParsedEncoding(peers: seq<AddrPort>)
    requires forall p :: p in peers ==> p.addr.V4?
    ensures |EncodePeers(peers)| == 6 * |peers|
    ensures ParsePeers(EncodePeers(peers)) == peers
  {
    if peers != [] {
      assert peers[0] in peers;
      ParsedEncoding(peers[1..]);
      var raw, p := EncodePeers(peers), peers[0];
      assert raw[..4] == p.addr.octets4 && raw[4..6] == Port(p.port) && raw[6..] == EncodePeers(peers[1..]);
      PortRoundTrip(p.port);
      assert [p] + peers[1..] == peers;
    }
  }

  lemma {:induction false} EncodedLength6(peers: seq<AddrPort>)
    requires forall p :: p in peers ==> p.addr.V6?
    ensures |EncodePeers(peers)| == 18 * |peers|
  {
    if peers != [] {
      assert peers[0] in peers;
      EncodedLength6(peers[1..]);
    }
  }

  lemma {:induction false} ParsedAreV4(s: seq<byte>)
    ensures |ParsePeers(s)| == |s| / 6
    ensures forall p :: p in ParsePeers(s) ==> p.addr.V4?
  {
    if |s| >= 6 {
      ParsedAreV4(s[6..]);
    }
  }

  /** A concatenation of IPv4 peers comes back. */
  lemma PeerListRoundTrip4(peers: seq<AddrPort>)
    requires forall p :: p in peers ==> p.addr.V4?
    ensures DecodePeers(EncodePeers(peers)) == Ok(peers)
  {
    ParsedEncoding(peers);
    WholePeers(EncodePeers(peers), |peers|);
  }

  lemma WholePeers(raw: seq<byte>, k: nat)
    requires |raw| == 6 * k
    ensures DecodePeers(raw) == Ok(ParsePeers(raw))
  {
    DecodePeersIsParsePeers(raw);
  }

  /** One of IPv6 peers never does, unless it is empty. */
  lemma PeerListFails6(peers: seq<AddrPort>)
    requires forall p :: p in peers ==> p.addr.V6?
    ensures DecodePeers(EncodePeers(peers)) == Ok(peers) <==> peers == []
  {
    var raw := EncodePeers(peers);
    EncodedLength6(peers);
    DecodePeersIsParsePeers(raw);
    ParsedAreV4(raw);
  }

  /** parsePeers6, for the IPv6 peers of peer exchange; mapped addresses stay as they are. */
  function ParsePeers6(s: seq<byte>): seq<AddrPort> {
    if |s| < 18 then [] else
    [AddrPort(V6(s[..16]), ReadPort(s[16..18]))] + ParsePeers6(s[18..])
  }

  /** The peer in front is read first. */
  lemma ParseOne6(p: AddrPort, tail: seq<byte>)
    requires p.addr.V6?
    ensures ParsePeers6(EncodePeer(p) + tail) == [p] + ParsePeers6(tail)
  {
    PortRoundTrip(p.port);
    var raw := EncodePeer(p) + tail;
    assert raw[..16] == p.addr.octets16 && raw[16..18] == Port(p.port) && raw[18..] == tail;
  }

  /** Every list of IPv6 peers comes back, mapped addresses included, whatever shorter rest follows. */
  lemma {:induction false} ParsedEncoding6(peers: seq<AddrPort>, rest: seq<byte>)
    requires (forall p :: p in peers ==> p.addr.V6?) && |rest| < 18
    ensures ParsePeers6(EncodePeers(peers) + rest) == peers
  {
    if peers == [] {
      assert [] + rest == rest;
    } else {
      assert peers[0] in peers;
      ParsedEncoding6(peers[1..], rest);
      ParseOne6(peers[0], EncodePeers(peers[1..]) + rest);
      assert EncodePeers(peers) + rest == EncodePeer(peers[0]) + (EncodePeers(peers[1..]) + rest);
      assert [peers[0]] + peers[1..] == peers;
    }
  }

  // --------------------------------------------------------------- the loops

  method UnmarshalTyped(raw: seq<byte>, nodeSize: nat) returns (r: Result<seq<Node>>)
    requires nodeSize > 0
    ensures r == DecodeTyped(raw, nodeSize)
  {
    if |raw| % nodeSize != 0 {
      return Err;
    }
    r := UnmarshalChunks(raw, nodeSize);
  }

  method UnmarshalCompactNodeInfos(raw: seq<byte>) returns (r: Result<seq<Node>>)
    ensures r == DecodeUntyped(raw)
  {
    if |raw| == 0 {
      return Ok([]);
    }
    var nodeSize;
    if |raw| % 26 == 0 {
      nodeSize := 26;
    } else if |raw| % 38 == 0 {
      nodeSize := 38;
    } else {
      return Err;
    }
    r := UnmarshalChunks(raw, nodeSize);
  }

  /** The offset loop both list decoders share. */
  method UnmarshalChunks(raw: seq<byte>, size: nat) returns (r: Result<seq<Node>>)
    requires size > 0 && |raw| % size == 0
    ensures r == DecodeNodeChunks(raw, size)
  {
    var nodes: seq<Node> := [];
    var off := 0;
    assert raw[0..] == raw;
    PrependNone(DecodeNodeChunks(raw, size));
    while off + size <= |raw|
      invariant off <= |raw|
      invariant Prepend(nodes, DecodeNodeChunks(raw[off..], size)) == DecodeNodeChunks(raw, size)
    {
      assert raw[off..][..size] == raw[off..off + size] && raw[off..][size..] == raw[off + size..];
      var one := DecodeNode(raw[off..off + size]);
      if one == Err {
        return Err;
      }
      PrependOne(nodes, one.value, DecodeNodeChunks(raw[off + size..], size));
      nodes := nodes + [one.value];
      off := off + size;
    }
    assert nodes + [] == nodes;
    return Ok(nodes);
  }

  function Prepend<T>(front: seq<T>, rest: Result<seq<T>>): Result<seq<T>> {
    if rest.Ok? then Ok(front + rest.value) else Err
  }

  lemma PrependNone<T>(rest: Result<seq<T>>)
    ensures Prepend([], rest) == rest
  {
    if rest.Ok? {
      assert [] + rest.value == rest.value;
    }
  }

  lemma PrependOne<T>(front: seq<T>, x: T, rest: Result<seq<T>>)
    ensures Prepend(front + [x], rest) == Prepend(front, Cons(Ok(x), rest))
  {
    if rest.Ok? {
      assert front + [x] + rest.value == front + ([x] + rest.value);
    }
  }

  method ParsePeersLoop(s: seq<byte>) returns (peers: seq<AddrPort>)
    ensures peers == ParsePeers(s)
  {
    peers := [];
    var i := 0;
    assert s[0..] == s;
    while i + 6 <= |s|
      invariant i <= |s| && peers + ParsePeers(s[i..]) == ParsePeers(s)
    {
      assert s[i..][..4] == s[i..i + 4] && s[i..][4..6] == s[i + 4..i + 6] && s[i..][6..] == s[i + 6..];
      var ip := V4(s[i..i + 4]);
      peers := peers + [AddrPort(ip.Unmap(), ReadPort(s[i + 4..i + 6]))];
      i := i + 6;
    }
  }

  method ParsePeers6Loop(s: seq<byte>) returns (peers: seq<AddrPort>)
    ensures peers == ParsePeers6(s)
  {
    peers := [];
    var i := 0;
    assert s[0..] == s;
    while i + 18 <= |s|
      invariant i <= |s| && peers + ParsePeers6(s[i..]) == ParsePeers6(s)
    {
      assert s[i..][..16] == s[i..i + 16] && s[i..][16..18] == s[i + 16..i + 18] && s[i..][18..] == s[i + 18..];
      peers := peers + [AddrPort(V6(s[i..i + 16]), ReadPort(s[i + 16..i + 18]))];
      i := i + 18;
    }
  }
}
