/** Small shared vocabulary: options, bytes, and Go's copy into a fixed array. */
module Basics {

  datatype Option<+T> = None | Some(value: T)

  type byte = b: int | 0 <= b < 256

  /** An infohash as the cache, the sink, the queue and the request table use it: its bytes, whatever their number. */
  type InfoHash = seq<byte>

  /** No element occurs twice. */
  ghost predicate Distinct<T>(s: seq<T>) {
    forall i, j :: 0 <= i < j < |s| ==> s[i] != s[j]
  }

  /** `copy(dst[:], src)` into a zeroed array of n bytes: cut or zero-padded on the right. */
  function Fit(src: seq<byte>, n: nat): (dst: seq<byte>)
    ensures |dst| == n
    ensures |src| == n ==> dst == src
  {
    if |src| >= n then src[..n] else src + seq(n - |src|, _ => 0)
  }

  function Reverse<T>(s: seq<T>): (r: seq<T>)
    ensures |r| == |s|
  {
    if s == [] then [] else Reverse(s[1..]) + [s[0]]
  }

  lemma {:induction false} ReverseSnoc<T>(s: seq<T>, x: T)
    ensures Reverse(s + [x]) == [x] + Reverse(s)
  {
    if s == [] {
      assert [] + [x] == [x];
    } else {
      assert (s + [x])[1..] == s[1..] + [x];
      ReverseSnoc(s[1..], x);
    }
  }

  lemma {:induction false} ReverseIndex<T>(s: seq<T>)
    ensures forall i :: 0 <= i < |s| ==> Reverse(s)[i] == s[|s| - 1 - i]
  {
    if s != [] {
      ReverseIndex(s[1..]);
    }
  }

  lemma ConcatAssoc<T>(a: seq<T>, b: seq<T>, c: seq<T>)
    ensures a + (b + c) == (a + b) + c
  {
  }

  lemma SnocMultiset<T>(s: seq<T>, x: T)
    ensures multiset(s + [x]) == multiset(s) + multiset{x}
  {
  }

  lemma {:induction false} SubsetSize<T>(a: set<T>, b: set<T>)
    requires a <= b
    ensures |a| <= |b|
  {
    if a != {} {
      var x :| x in a;
      SubsetSize(a - {x}, b - {x});
    }
  }

  /** A sublist: what is left of a list when some elements are taken out. */
  ghost predicate IsSublist<T>(part: seq<T>, whole: seq<T>) {
    || part == []
    || (whole != [] && part[0] == whole[0] && IsSublist(part[1..], whole[1..]))
    || (whole != [] && IsSublist(part, whole[1..]))
  }
}
