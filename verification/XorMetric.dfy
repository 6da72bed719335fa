/**
 * The XOR metric of the DHT: node IDs are 160-bit numbers, their distance is
 * the number whose bits are the exclusive or of the two.
 */
module XorMetric {
  import opened Basics

  type ID = s: seq<byte> | |s| == 20 witness seq(20, _ => 0)

  /** Exclusive or of two numbers, bit by bit. */
  function Xor(a: nat, b: nat): nat
    decreases a + b
  {
    if a == 0 && b == 0 then 0 else 2 * Xor(a / 2, b / 2) + (a % 2 + b % 2) % 2
  }

  /** Number of bits needed to write n; zero for zero. */
  function BitLen(n: nat): nat {
    if n == 0 then 0 else 1 + BitLen(n / 2)
  }

  function Pow2(k: nat): (p: nat)
    ensures p > 0
  {
    if k == 0 then 1 else 2 * Pow2(k - 1)
  }

  /** A byte string read as a big-endian number. */
  function Value(s: seq<byte>): nat {
    if s == [] then 0 else 256 * Value(s[..|s| - 1]) + s[|s| - 1]
  }

  /** The distance BEP 5 defines between two IDs. */
  function Distance(a: seq<byte>, b: seq<byte>): nat {
    Xor(Value(a), Value(b))
  }

  /** Bucket of a remote ID: floor(log2) of the distance, or -1 for the local ID itself. */
  function BucketOf(local: ID, remote: ID): int {
    BitLen(Distance(local, remote)) - 1
  }

  // ---------------------------------------------------------------- numbers

  lemma {:induction false} FloorLog2(n: nat)
    requires n > 0
    ensures Pow2(BitLen(n) - 1) <= n < Pow2(BitLen(n))
  {
    if n > 1 {
      FloorLog2(n / 2);
    }
  }

  lemma {:induction false} BitLenOrder(x: nat, y: nat)
    requires BitLen(x) < BitLen(y)
    ensures x < y
  {
    if x != 0 {
      BitLenOrder(x / 2, y / 2);
    }
  }

  lemma {:induction false} BitLenFits(n: nat, k: nat)
    requires n < Pow2(k)
    ensures BitLen(n) <= k
  {
    if n != 0 {
      BitLenFits(n / 2, k - 1);
    }
  }

  lemma {:induction false} XorIsZero(a: nat, b: nat)
    ensures Xor(a, b) == 0 <==> a == b
    decreases a + b
  {
    if a != 0 || b != 0 {
      XorIsZero(a / 2, b / 2);
    }
  }

  lemma {:induction false} XorSymmetric(a: nat, b: nat)
    ensures Xor(a, b) == Xor(b, a)
    decreases a + b
  {
    if a != 0 || b != 0 {
      XorSymmetric(a / 2, b / 2);
    }
  }

  /** Distances to a common point cancel. */
  lemma {:induction false} XorCancels(a: nat, b: nat, c: nat)
    ensures Xor(Xor(a, b), Xor(a, c)) == Xor(b, c)
    decreases a + b + c
  {
    if a != 0 || b != 0 || c != 0 {
      XorHalves(a, b);
      XorHalves(a, c);
      XorCancels(a / 2, b / 2, c / 2);
      CancelStep(a, b, c, Xor(a, b), Xor(a, c));
    }
  }

  lemma {:induction false} CancelStep(a: nat, b: nat, c: nat, p: nat, q: nat)
    requires p / 2 == Xor(a / 2, b / 2) && p % 2 == (a % 2 + b % 2) % 2
    requires q / 2 == Xor(a / 2, c / 2) && q % 2 == (a % 2 + c % 2) % 2
    requires Xor(Xor(a / 2, b / 2), Xor(a / 2, c / 2)) == Xor(b / 2, c / 2)
    ensures Xor(p, q) == Xor(b, c)
  {
    LowBitsCancel(a, b, c, p, q);
    SameHalves(p, q, b, c);
  }

  lemma LowBitsCancel(a: nat, b: nat, c: nat, p: nat, q: nat)
    requires p % 2 == (a % 2 + b % 2) % 2 && q % 2 == (a % 2 + c % 2) % 2
    ensures (p % 2 + q % 2) % 2 == (b % 2 + c % 2) % 2
  {
    BitsCancel(a % 2, b % 2, c % 2);
  }

  lemma BitsCancel(i: nat, j: nat, k: nat)
    requires i < 2 && j < 2 && k < 2
    ensures ((i + j) % 2 + (i + k) % 2) % 2 == (j + k) % 2
  {
  }

  lemma SameHalves(x: nat, y: nat, u: nat, v: nat)
    requires Xor(x / 2, y / 2) == Xor(u / 2, v / 2)
    requires (x % 2 + y % 2) % 2 == (u % 2 + v % 2) % 2
    ensures Xor(x, y) == Xor(u, v)
  {
    XorHalves(x, y);
    XorHalves(u, v);
  }

  lemma XorHalves(a: nat, b: nat)
    ensures Xor(a, b) / 2 == Xor(a / 2, b / 2)
    ensures Xor(a, b) % 2 == (a % 2 + b % 2) % 2
  {
  }

  /** The longer operand decides the length of an exclusive or; equal lengths cancel the top bit. */
  lemma {:induction false} XorLength(x: nat, y: nat)
    ensures BitLen(x) < BitLen(y) ==> BitLen(Xor(x, y)) == BitLen(y)
    ensures BitLen(x) > BitLen(y) ==> BitLen(Xor(x, y)) == BitLen(x)
    ensures BitLen(x) == BitLen(y) > 0 ==> BitLen(Xor(x, y)) < BitLen(x)
    decreases x + y
  {
    if x != 0 || y != 0 {
      XorHalves(x, y);
      XorLength(x / 2, y / 2);
      if x / 2 == 0 && y / 2 == 0 {
        assert x <= 1 && y <= 1;
        assert Xor(x / 2, y / 2) == 0;
      }
    }
  }

  /** Exclusive or works block by block. */
  lemma {:induction false} XorBlocks(k: nat, a: nat, b: nat, x: nat, y: nat)
    requires x < Pow2(k) && y < Pow2(k)
    ensures Xor(x, y) < Pow2(k)
    ensures Xor(Shl(k, a) + x, Shl(k, b) + y) == Shl(k, Xor(a, b)) + Xor(x, y)
    decreases k
  {
    if k != 0 {
      XorBlocks(k - 1, a, b, x / 2, y / 2);
      XorHalves(x, y);
      XorDoubled(Shl(k - 1, a), Shl(k - 1, b), Shl(k - 1, Xor(a, b)), x, y);
    }
  }

  /** One more low bit on both sides. */
  lemma {:induction false} XorDoubled(s: nat, t: nat, r: nat, x: nat, y: nat)
    requires Xor(s + x / 2, t + y / 2) == r + Xor(x / 2, y / 2)
    ensures Xor(2 * s + x, 2 * t + y) == 2 * r + Xor(x, y)
  {
    Halved(s, x);
    Halved(t, y);
    var bit := (x % 2 + y % 2) % 2;
    XorOfParts(2 * s + x, 2 * t + y, s + x / 2, t + y / 2, bit);
    XorOfParts(x, y, x / 2, y / 2, bit);
  }

  lemma {:induction false} XorOfParts(u: nat, v: nat, a: nat, b: nat, bit: nat)
    requires u / 2 == a && v / 2 == b && (u % 2 + v % 2) % 2 == bit
    ensures Xor(u, v) == 2 * Xor(a, b) + bit
  {
  }

  lemma Halved(s: nat, x: nat)
    ensures (2 * s + x) / 2 == s + x / 2
    ensures (2 * s + x) % 2 == x % 2
  {
  }

  lemma XorFits(k: nat, a: nat, b: nat)
    requires a < Pow2(k) && b < Pow2(k)
    ensures Xor(a, b) < Pow2(k)
  {
    XorBlocks(k, 0, 0, a, b);
  }

  /** k doublings. */
  function Shl(k: nat, a: nat): nat {
    if k == 0 then a else 2 * Shl(k - 1, a)
  }

  lemma ShlByte(a: nat)
    ensures Shl(8, a) == 256 * a
    ensures Pow2(8) == 256
  {
    assert Shl(2, a) == 2 * Shl(1, a) == 4 * a;
    assert Shl(4, a) == 2 * Shl(3, a) == 16 * a;
    assert Shl(6, a) == 2 * Shl(5, a) == 64 * a;
    assert Shl(8, a) == 2 * Shl(7, a);
    assert Pow2(4) == 16;
    assert Pow2(6) == 64;
  }

  lemma XorByte(a: nat, b: nat, x: byte, y: byte)
    ensures Xor(x, y) < 256
    ensures Xor(256 * a + x, 256 * b + y) == 256 * Xor(a, b) + Xor(x, y)
  {
    ShlByte(a);
    ShlByte(b);
    ShlByte(Xor(a, b));
    XorBlocks(8, a, b, x, y);
  }

  lemma {:induction false} BitLenShift(k: nat, d: nat, r: nat)
    requires d > 0 && r < Pow2(k)
    ensures Shl(k, d) > 0
    ensures BitLen(Shl(k, d) + r) == k + BitLen(d)
  {
    if k != 0 {
      BitLenShift(k - 1, d, r / 2);
      assert (Shl(k, d) + r) / 2 == Shl(k - 1, d) + r / 2;
    }
  }

  // ----------------------------------------------------------- byte strings

  lemma {:induction false} ValueFits(s: seq<byte>)
    ensures Value(s) < Pow2(8 * |s|)
  {
    if s != [] {
      ValueFits(s[..|s| - 1]);
      Pow2Byte(|s| - 1);
    }
  }

  lemma Pow2Byte(n: nat)
    ensures Pow2(8 * (n + 1)) == 256 * Pow2(8 * n)
  {
    var m := 8 * n;
    assert Pow2(m + 4) == 16 * Pow2(m) by { assert Pow2(m + 2) == 4 * Pow2(m); }
    assert Pow2(m + 8) == 16 * Pow2(m + 4) by { assert Pow2(m + 6) == 4 * Pow2(m + 4); }
  }

  /** Byte strings of one length are equal exactly when their numbers are. */
  lemma {:induction false} ValueInjective(a: seq<byte>, b: seq<byte>)
    requires |a| == |b|
    ensures Value(a) == Value(b) <==> a == b
  {
    if a != [] {
      var n := |a| - 1;
      ValueInjective(a[..n], b[..n]);
      assert a == a[..n] + [a[n]] && b == b[..n] + [b[n]];
    }
  }

  /** The distance of two byte strings, one last byte at a time. */
  lemma DistanceSnoc(a: seq<byte>, b: seq<byte>)
    requires |a| == |b| > 0
    ensures var n := |a| - 1;
            Xor(a[n], b[n]) < 256 &&
            Distance(a, b) == 256 * Distance(a[..n], b[..n]) + Xor(a[n], b[n])
  {
    var n := |a| - 1;
    XorByte(Value(a[..n]), Value(b[..n]), a[n], b[n]);
  }

  lemma BitLenSnoc(d: nat, r: nat)
    requires r < 256
    ensures BitLen(256 * d + r) == if d > 0 then 8 + BitLen(d) else BitLen(r)
  {
    if d > 0 {
      ShlByte(d);
      BitLenShift(8, d, r);
    }
  }

  /** A first differing byte fixes the length of the distance. */
  lemma {:induction false} FirstDifference(a: seq<byte>, b: seq<byte>, i: nat)
    requires |a| == |b| && i < |a| && a[..i] == b[..i] && a[i] != b[i]
    ensures Distance(a, b) > 0
    ensures BitLen(Distance(a, b)) == (|a| - 1 - i) * 8 + BitLen(Xor(a[i], b[i]))
  {
    var n := |a| - 1;
    var a', b' := a[..n], b[..n];
    var d, r := Distance(a', b'), Xor(a[n], b[n]);
    assert r < 256 && Distance(a, b) == 256 * d + r by { DistanceSnoc(a, b); }
    assert BitLen(256 * d + r) == if d > 0 then 8 + BitLen(d) else BitLen(r) by { BitLenSnoc(d, r); }
    if i == n {
      assert d == 0 && r > 0 by { XorIsZero(Value(a'), Value(b')); XorIsZero(a[n], b[n]); }
    } else {
      assert a'[..i] == a[..i] && b'[..i] == b[..i];
      FirstDifference(a', b', i);
    }
  }

  /** A first differing byte of the distances decides which of two IDs is nearer. */
  lemma {:induction false} FirstNearer(a: seq<byte>, b: seq<byte>, t: seq<byte>, i: nat)
    requires |a| == |b| == |t| && i < |t|
    requires forall j :: 0 <= j < i ==> Xor(a[j], t[j]) == Xor(b[j], t[j])
    requires Xor(a[i], t[i]) < Xor(b[i], t[i])
    ensures Distance(a, t) < Distance(b, t)
  {
    var n := |t| - 1;
    DistanceSnoc(a, t);
    DistanceSnoc(b, t);
    if i == n {
      SameDistance(a[..n], b[..n], t[..n]);
    } else {
      FirstNearer(a[..n], b[..n], t[..n], i);
    }
  }

  lemma {:induction false} SameDistance(a: seq<byte>, b: seq<byte>, t: seq<byte>)
    requires |a| == |b| == |t|
    requires forall j :: 0 <= j < |t| ==> Xor(a[j], t[j]) == Xor(b[j], t[j])
    ensures Distance(a, t) == Distance(b, t)
  {
    if |t| > 0 {
      var n := |t| - 1;
      DistanceSnoc(a, t);
      DistanceSnoc(b, t);
      SameDistance(a[..n], b[..n], t[..n]);
    }
  }

  // ------------------------------------------------------------- operations

  /** The scan over bytes computes floor(log2) of the 160-bit distance. */
  method XorBucketIndex(local: ID, remote: ID) returns (index: int)
    ensures index == BucketOf(local, remote)
    ensures -1 <= index < 160
  {
    BucketRange(local, remote);
    for i := 0 to |local|
      invariant local[..i] == remote[..i]
    {
      var x := Xor(local[i], remote[i]);
      XorIsZero(local[i], remote[i]);
      if x != 0 {
        FirstDifference(local, remote, i);
        return (|local| - 1 - i) * 8 + BitLen(x) - 1;
      }
    }
    assert local == local[..20] && remote == remote[..20];
    XorIsZero(Value(local), Value(remote));
    return -1;
  }

  /** The bytewise comparison is integer comparison of the two distances. */
  method XorLess(a: ID, b: ID, target: ID) returns (less: bool)
    ensures less <==> Distance(a, target) < Distance(b, target)
  {
    for i := 0 to |a|
      invariant forall j :: 0 <= j < i ==> Xor(a[j], target[j]) == Xor(b[j], target[j])
    {
      var da, db := Xor(a[i], target[i]), Xor(b[i], target[i]);
      if da != db {
        if da < db {
          FirstNearer(a, b, target, i);
        } else {
          FirstNearer(b, a, target, i);
        }
        return da < db;
      }
    }
    SameDistance(a, b, target);
    return false;
  }

  // ------------------------------------------------------------- the metric

  /** -1 exactly on equality, below 160, and otherwise floor(log2) of the distance. */
  lemma BucketRange(local: ID, remote: ID)
    ensures -1 <= BucketOf(local, remote) < 160
    ensures BucketOf(local, remote) == -1 <==> local == remote
    ensures local != remote ==>
              var k := BucketOf(local, remote);
              Pow2(k) <= Distance(local, remote) < Pow2(k + 1)
  {
    var a, b, k := Value(local), Value(remote), 8 * |local|;
    ValueInjective(local, remote);
    XorIsZero(a, b);
    ValueFits(local);
    ValueFits(remote);
    XorFits(k, a, b);
    BitLenFits(Xor(a, b), k);
    if a != b {
      FloorLog2(Xor(a, b));
    }
  }

  /** IDs at one distance from a target are one ID: nearness is a strict order on IDs. */
  lemma SameDistanceSameID(a: ID, b: ID, target: ID)
    requires Distance(a, target) == Distance(b, target)
    ensures a == b
  {
    var t, x, y := Value(target), Value(a), Value(b);
    XorSymmetric(x, t);
    XorSymmetric(y, t);
    XorCancels(t, x, y);
    XorIsZero(Xor(t, x), Xor(t, y));
    XorIsZero(x, y);
    ValueInjective(a, b);
  }

  /** Every ID in the target's own bucket is strictly nearer the target than any ID in another bucket. */
  lemma OwnBucketIsNearer(local: ID, target: ID, near: ID, far: ID)
    requires target != local
    requires BucketOf(local, near) == BucketOf(local, target) != BucketOf(local, far)
    ensures Distance(near, target) < Distance(far, target)
  {
    var l, t, n, f := Value(local), Value(target), Value(near), Value(far);
    BucketRange(local, target);
    XorCancels(l, n, t);
    XorCancels(l, f, t);
    XorLength(Xor(l, n), Xor(l, t));
    XorLength(Xor(l, f), Xor(l, t));
    BitLenOrder(Distance(near, target), Distance(far, target));
  }
}
