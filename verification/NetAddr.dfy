/** Addresses as Go's netip package represents them, without IPv6 zones. */
module NetAddr {
  import opened Basics

  type Bytes4 = s: seq<byte> | |s| == 4 witness seq(4, _ => 0)
  type Bytes16 = s: seq<byte> | |s| == 16 witness seq(16, _ => 0)
  type port16 = p: int | 0 <= p < 0x1_0000

  datatype Addr = NoAddr | V4(octets4: Bytes4) | V6(octets16: Bytes16)
  {
    predicate Is4() { V4? }

    /** An IPv6 address that carries an IPv4 address (::ffff:0:0/96). */
    predicate Is4In6() {
      V6? && octets16[..10] == seq(10, _ => 0) && octets16[10] == 255 && octets16[11] == 255
    }

    function Unmap(): Addr {
      if Is4In6() then V4(octets16[12..]) else this
    }

    function AsSlice(): seq<byte> {
      match this
      case NoAddr => []
      case V4(o) => o
      case V6(o) => o
    }
  }

  datatype AddrPort = AddrPort(addr: Addr, port: port16)
  {
    predicate IsValid() { addr != NoAddr }

    /** The test every peer and node address passes before it is used. */
    predicate Usable() { IsValid() && port != 0 }
  }

  function AddrFromSlice(s: seq<byte>): Option<Addr> {
    if |s| == 4 then Some(V4(s)) else if |s| == 16 then Some(V6(s)) else None
  }

  datatype Network = UDP4 | UDP6

  /** Which addresses a service bound to one network keeps. */
  predicate Accepts(network: Network, a: AddrPort) {
    a.Usable() && (network.UDP4? <==> a.addr.Is4())
  }

  /** An IPv4 service keeps IPv4 addresses and an IPv6 one IPv6 addresses, mapped ones too; port zero is never kept. */
  lemma AcceptsByFamily(a: AddrPort)
    ensures Accepts(UDP4, a) <==> a.addr.V4? && a.port != 0
    ensures Accepts(UDP6, a) <==> a.addr.V6? && a.port != 0
    ensures a.Usable() <==> Accepts(UDP4, a) || Accepts(UDP6, a)
  {
  }

  /** Addresses with ten zero bytes and two of 255 in front are read as the IPv4 address behind, and no others. */
  lemma UnmapDecides(o: Bytes4, a: Addr)
    ensures V6(seq(10, _ => 0) + [255, 255] + o).Unmap() == V4(o)
    ensures a.Unmap() != a <==>
            a.V6? && a.octets16[10] == 255 && a.octets16[11] == 255 && forall i :: 0 <= i < 10 ==> a.octets16[i] == 0
  {
    var mapped: seq<byte> := seq(10, _ => 0) + [255, 255] + o;
    assert mapped[..10] == seq(10, _ => 0) && mapped[12..] == o;
    if a.Is4In6() {
      assert forall i :: 0 <= i < 10 ==> a.octets16[i] == a.octets16[..10][i];
    }
  }
}
