/**
 * Fetching a torrent's metadata from one peer, piece by piece (BEP 9). All pieces are
 * requested at once; the loop takes data messages in whatever order they come.
 */
module MetadataExchange {
  import opened Basics

  const PIECE := 16384
  const MAX_SIZE := 10 * 1024 * 1024

  /** An extension message as the loop tells them apart. */
  datatype Message =
    | Data(piece: int, payload: seq<byte>)
    | Reject
    | Undecodable
    | Other   // any other metadata message type, peer exchange, or another extension

  /** How the loop ends. Crashed: the slice expression panics on an out-of-range piece. */
  datatype Outcome = Complete | ReadFailed | Undecoded | Rejected | TooLong | TooShort | TooMuch | Crashed

  /** ceil(size / 16384): the number of pieces. */
  function Pieces(size: nat): nat {
    (size + PIECE - 1) / PIECE
  }

  /** copy(buf[at:at+len(data)], data). */
  function Placed(buf: seq<byte>, at: int, data: seq<byte>): (r: seq<byte>)
    requires 0 <= at && at + |data| <= |buf|
    ensures |r| == |buf|
  {
    buf[..at] + data + buf[at + |data|..]
  }

  /** Buffer, amount received and accepted data messages when the loop ends, and how it ends. */
  datatype Transfer = Transfer(outcome: Outcome, buf: seq<byte>, taken: seq<Message>)

  /** piece*16384 in 64 bits. */
  function Offset(piece: int): (at: int)
    ensures 0 <= piece < 0x2_0000_0000_0000 ==> at == piece * PIECE
  {
    (piece * PIECE + 0x8000_0000_0000_0000) % 0x1_0000_0000_0000_0000 - 0x8000_0000_0000_0000
  }

  function InRange(piece: int, payload: seq<byte>, size: nat): bool {
    0 <= Offset(piece) && Offset(piece) + |payload| <= size
  }

  /** The product goes round: a piece number 2^50 further on is placed like the piece itself. */
  lemma FarPieceWraps(piece: int, payload: seq<byte>, size: nat)
    ensures Offset(piece + 0x4_0000_0000_0000) == Offset(piece)
    ensures InRange(piece + 0x4_0000_0000_0000, payload, size) <==> InRange(piece, payload, size)
  {
    var x, m := piece * PIECE + 0x8000_0000_0000_0000, 0x1_0000_0000_0000_0000;
    assert (x + m) % m == x % m;
  }

  /** The check after a piece has been copied, with the new amount received. */
  function Check(length: nat, received: nat, size: nat): Option<Outcome> {
    if length < PIECE && received != size then Some(TooShort)
    else if received > size then Some(TooMuch)
    else None
  }

  /** The metadata loop of Do, on a list of incoming messages that ends in a read error. */
  function Receive(buf: seq<byte>, received: nat, msgs: seq<Message>): Transfer
    decreases |msgs|
  {
    if received >= |buf| then Transfer(Complete, buf, [])
    else if msgs == [] then Transfer(ReadFailed, buf, [])
    else
      match msgs[0]
      case Reject => Transfer(Rejected, buf, [])
      case Undecodable => Transfer(Undecoded, buf, [])
      case Other => Receive(buf, received, msgs[1..])
      case Data(piece, payload) =>
        if |payload| > PIECE then Transfer(TooLong, buf, [])
        else if !InRange(piece, payload, |buf|) then Transfer(Crashed, buf, [])
        else
          var buf' := Placed(buf, Offset(piece), payload);
          match Check(|payload|, received + |payload|, |buf|)
          case Some(failure) => Transfer(failure, buf', [])
          case None =>
            var rest := Receive(buf', received + |payload|, msgs[1..]);
            rest.(taken := [msgs[0]] + rest.taken)
  }

  // ------------------------------------------------------------- how it ends

  /** The loop ends without error only when everything has arrived, in full pieces but the last. */
  lemma {:induction false} TakenAddUp(buf: seq<byte>, received: nat, msgs: seq<Message>)
    requires received <= |buf| && received % PIECE == 0
    requires Receive(buf, received, msgs).outcome == Complete
    ensures var taken := Receive(buf, received, msgs).taken;
            && |taken| == Pieces(|buf| - received)
            && (forall k :: 0 <= k < |taken| ==> taken[k].Data?)
            && (forall k :: 0 <= k < |taken| - 1 ==> |taken[k].payload| == PIECE)
    decreases |msgs|
  {
    if received < |buf| {
      match msgs[0]
      case Other => TakenAddUp(buf, received, msgs[1..]);
      case Data(piece, payload) =>
        var received' := received + |payload|;
        if received' < |buf| {
          assert |payload| == PIECE;
          TakenAddUp(Placed(buf, Offset(piece), payload), received', msgs[1..]);
        }
    }
  }

  // --------------------------------------------------------- the loop, message by message

  /** How much the data messages of a list carry. */
  function Carried(taken: seq<Message>): nat {
    if taken == [] then 0 else
    Carried(taken[..|taken| - 1]) + if taken[|taken| - 1].Data? then |taken[|taken| - 1].payload| else 0
  }

  lemma {:induction false} CarriedCons(m: Message, taken: seq<Message>)
    ensures Carried([m] + taken) == (if m.Data? then |m.payload| else 0) + Carried(taken)
  {
    if taken == [] {
      assert [m] + [] == [m] && [m][..0] == [];
    } else {
      var front := taken[..|taken| - 1];
      assert ([m] + taken)[..|taken|] == [m] + front;
      CarriedCons(m, front);
    }
  }

  /**
   * The loop has no memory but its buffer and its counter: where a first part of the messages
   * leaves it waiting for more, it goes on with the rest from there, and where that part ends
   * it, the rest is not looked at.
   */
  lemma {:induction false} ReceiveInParts(buf: seq<byte>, received: nat, a: seq<Message>, b: seq<Message>)
    ensures var first := Receive(buf, received, a);
            if first.outcome == ReadFailed then
              var rest := Receive(first.buf, received + Carried(first.taken), b);
              Receive(buf, received, a + b) == Transfer(rest.outcome, rest.buf, first.taken + rest.taken)
            else
              Receive(buf, received, a + b) == first
    decreases |a|
  {
    if received >= |buf| {
    } else if a == [] {
      assert [] + b == b;
      var rest := Receive(buf, received, b);
      assert [] + rest.taken == rest.taken;
    } else {
      assert (a + b)[1..] == a[1..] + b && (a + b)[0] == a[0];
      match a[0] {
        case Reject =>
        case Undecodable =>
        case Other => ReceiveInParts(buf, received, a[1..], b);
        case Data(piece, payload) => DataInParts(buf, received, a, b, piece, payload);
      }
    }
  }

  lemma {:induction false} DataInParts(buf: seq<byte>, received: nat, a: seq<Message>, b: seq<Message>,
                                       piece: int, payload: seq<byte>)
    requires received < |buf| && a != [] && a[0] == Data(piece, payload)
    ensures var first := Receive(buf, received, a);
            if first.outcome == ReadFailed then
              var rest := Receive(first.buf, received + Carried(first.taken), b);
              Receive(buf, received, a + b) == Transfer(rest.outcome, rest.buf, first.taken + rest.taken)
            else
              Receive(buf, received, a + b) == first
    decreases |a|, 0
  {
    assert (a + b)[1..] == a[1..] + b && (a + b)[0] == a[0];
    if GoesOn(received, a[0], |buf|) {
      var buf', received' := Placed(buf, Offset(piece), payload), received + |payload|;
      DataGoesOn(buf, received, a);
      DataGoesOn(buf, received, a + b);
      ReceiveInParts(buf', received', a[1..], b);
      var tail := Receive(buf', received', a[1..]);
      CarriedCons(a[0], tail.taken);
      if tail.outcome == ReadFailed {
        ConcatAssoc([a[0]], tail.taken, Receive(tail.buf, received' + Carried(tail.taken), b).taken);
      }
    } else {
      DataEnds(buf, received, a, a + b);
    }
  }

  /** Does the loop go on after a data message? */
  predicate GoesOn(received: nat, m: Message, size: nat) {
    && m.Data? && |m.payload| <= PIECE && InRange(m.piece, m.payload, size)
    && Check(|m.payload|, received + |m.payload|, size).None?
  }

  lemma DataGoesOn(buf: seq<byte>, received: nat, msgs: seq<Message>)
    requires received < |buf| && msgs != [] && GoesOn(received, msgs[0], |buf|)
    ensures var m := msgs[0];
            var rest := Receive(Placed(buf, Offset(m.piece), m.payload), received + |m.payload|, msgs[1..]);
            Receive(buf, received, msgs) == Transfer(rest.outcome, rest.buf, [m] + rest.taken)
  {
  }

  lemma DataEnds(buf: seq<byte>, received: nat, msgs: seq<Message>, more: seq<Message>)
    requires received < |buf| && msgs != [] && more != [] && msgs[0] == more[0]
    requires msgs[0].Data? && !GoesOn(received, msgs[0], |buf|)
    ensures Receive(buf, received, msgs) == Receive(buf, received, more)
    ensures Receive(buf, received, msgs).outcome != ReadFailed
  {
  }

  /** What the next message does to a loop that is waiting for it. */
  lemma NextMessage(buf: seq<byte>, received: nat, m: Message, rest: seq<Message>)
    requires received < |buf|
    ensures var r := Receive(buf, received, [m] + rest);
            match m
            case Reject => r == Transfer(Rejected, buf, [])
            case Undecodable => r == Transfer(Undecoded, buf, [])
            case Other => r == Receive(buf, received, rest)
            case Data(piece, payload) =>
              && (|payload| > 16384 ==> r == Transfer(TooLong, buf, []))
              && (|payload| <= 16384 && !InRange(piece, payload, |buf|) ==> r == Transfer(Crashed, buf, []))
              && (|payload| <= 16384 && InRange(piece, payload, |buf|) ==>
                    var total := received + |payload|;
                    && (|payload| < 16384 && total != |buf| ==> r.outcome == TooShort)
                    && (|payload| == 16384 && total > |buf| ==> r.outcome == TooMuch)
                    && (total == |buf| ==> r.outcome == Complete && r.buf == Placed(buf, Offset(piece), payload)))
  {
    assert ([m] + rest)[1..] == rest;
  }

  /** The messages without those the loop has no use for. */
  function Useful(msgs: seq<Message>): seq<Message> {
    if msgs == [] then [] else (if msgs[0].Other? then [] else [msgs[0]]) + Useful(msgs[1..])
  }

  /** Other messages are skipped wherever they come. */
  lemma {:induction false} OthersAreSkipped(buf: seq<byte>, received: nat, msgs: seq<Message>)
    ensures Receive(buf, received, msgs) == Receive(buf, received, Useful(msgs))
    decreases |msgs|
  {
    if received < |buf| && msgs != [] {
      UsefulParts(msgs);
      if msgs[0].Other? {
        OthersAreSkipped(buf, received, msgs[1..]);
      } else if GoesOn(received, msgs[0], |buf|) {
        var buf' := Placed(buf, Offset(msgs[0].piece), msgs[0].payload);
        OthersAreSkipped(buf', received + |msgs[0].payload|, msgs[1..]);
        DataGoesOn(buf, received, msgs);
        DataGoesOn(buf, received, Useful(msgs));
      } else if msgs[0].Data? {
        DataEnds(buf, received, msgs, Useful(msgs));
      }
    }
  }

  lemma UsefulParts(msgs: seq<Message>)
    requires msgs != []
    ensures msgs[0].Other? ==> Useful(msgs) == Useful(msgs[1..])
    ensures !msgs[0].Other? ==>
              Useful(msgs) != [] && Useful(msgs)[0] == msgs[0] && Useful(msgs)[1..] == Useful(msgs[1..])
  {
  }

  /** A piece goes to its offset and leaves every other byte alone. */
  lemma PlacedAt(buf: seq<byte>, piece: int, payload: seq<byte>, i: nat)
    requires InRange(piece, payload, |buf|) && 0 <= piece < 0x2_0000_0000_0000 && i < |buf|
    ensures Placed(buf, Offset(piece), payload)[i] ==
            if 16384 * piece <= i < 16384 * piece + |payload| then payload[i - 16384 * piece] else buf[i]
  {
  }

  /** The number of pieces is the size over 16384, rounded up. */
  lemma PiecesAreCeiling(size: nat)
    ensures 16384 * (Pieces(size) - 1) < size <= 16384 * Pieces(size)
  {
  }

  /** Pieces requested one by one: exactly the indices below ceil(size / 16384). */
  method RequestAllPieces(size: nat) returns (requested: seq<nat>)
    ensures requested == seq(Pieces(size), i => i)
  {
    requested := [];
    for piece := 0 to Pieces(size)
      invariant requested == seq(piece, i => i)
    {
      requested := requested + [piece];
    }
  }

  // ------------------------------------------------------------ honest peers

  /** The bytes of one piece. */
  function Slice(original: seq<byte>, piece: nat): seq<byte>
    requires piece < Pieces(|original|)
  {
    original[piece * PIECE..if piece == Pieces(|original|) - 1 then |original| else (piece + 1) * PIECE]
  }

  ghost predicate Honest(m: Message, original: seq<byte>) {
    m.Data? && 0 <= m.piece < Pieces(|original|) && m.payload == Slice(original, m.piece)
  }

  /** A buffer agrees with the original on one piece. */
  ghost predicate Agrees(buf: seq<byte>, original: seq<byte>, piece: int) {
    |buf| == |original| &&
    forall i :: 0 <= i < |buf| && piece * PIECE <= i < (piece + 1) * PIECE ==> buf[i] == original[i]
  }

  lemma PlacedAgrees(buf: seq<byte>, original: seq<byte>, m: Message, q: int)
    requires |buf| == |original| < MAX_SIZE && Honest(m, original)
    requires q == m.piece || Agrees(buf, original, q)
    ensures InRange(m.piece, m.payload, |buf|)
    ensures Agrees(Placed(buf, Offset(m.piece), m.payload), original, q)
  {
  }

  ghost predicate DistinctPieces(taken: seq<Message>) {
    && (forall k :: 0 <= k < |taken| ==> taken[k].Data?)
    && forall j, k :: 0 <= j < k < |taken| ==> taken[j].piece != taken[k].piece
  }

  ghost function Indices(taken: seq<Message>): set<int> {
    set m | m in taken && m.Data? :: m.piece
  }

  /** What honest pieces have written is never overwritten by other honest pieces. */
  lemma {:induction false} HonestPiecesStay(buf: seq<byte>, received: nat, msgs: seq<Message>,
                                            original: seq<byte>, q: int)
    requires |buf| == |original| < MAX_SIZE
    requires forall m :: m in Receive(buf, received, msgs).taken ==> Honest(m, original)
    requires Receive(buf, received, msgs).outcome == Complete
    requires Agrees(buf, original, q) || q in Indices(Receive(buf, received, msgs).taken)
    ensures Agrees(Receive(buf, received, msgs).buf, original, q)
    decreases |msgs|
  {
    if received < |buf| {
      match msgs[0]
      case Other => HonestPiecesStay(buf, received, msgs[1..], original, q);
      case Data(piece, payload) =>
        var buf' := Placed(buf, Offset(piece), payload);
        var rest := Receive(buf', received + |payload|, msgs[1..]);
        var taken := Receive(buf, received, msgs).taken;
        assert taken == [msgs[0]] + rest.taken && msgs[0] in taken;
        if q == piece || Agrees(buf, original, q) {
          PlacedAgrees(buf, original, msgs[0], q);
        } else {
          var m :| m in taken && m.Data? && m.piece == q;
          assert m in rest.taken;
        }
        HonestPiecesStay(buf', received + |payload|, msgs[1..], original, q);
    }
  }

  lemma {:induction false} DistinctIndices(taken: seq<Message>)
    requires DistinctPieces(taken)
    ensures |Indices(taken)| == |taken|
  {
    if taken != [] {
      var tail := taken[1..];
      DistinctIndices(tail);
      assert forall k :: 0 <= k < |tail| ==> tail[k] == taken[k + 1];
      assert taken == [taken[0]] + tail;
      assert Indices(taken) == Indices(tail) + {taken[0].piece};
    }
  }

  ghost function UpTo(n: nat): (s: set<int>)
    ensures |s| == n && forall x :: x in s <==> 0 <= x < n
  {
    if n == 0 then {} else UpTo(n - 1) + {n - 1}
  }

  /** n numbers below n are all of them. */
  lemma FullSet(s: set<int>, n: nat)
    requires |s| == n && s <= UpTo(n)
    ensures s == UpTo(n)
  {
    if s != UpTo(n) {
      assert !(UpTo(n) <= s);
      var x :| x in UpTo(n) && x !in s;
      SubsetSize(s, UpTo(n) - {x});
    }
  }

  /**
   * If the loop ends without error and the data messages it took carried distinct pieces,
   * each with its right bytes, the buffer is the original, whatever order they came in.
   */
  lemma HonestTransferIsExact(msgs: seq<Message>, original: seq<byte>, blank: seq<byte>)
    requires |blank| == |original| < MAX_SIZE
    requires Receive(blank, 0, msgs).outcome == Complete
    requires forall m :: m in Receive(blank, 0, msgs).taken ==> Honest(m, original)
    requires DistinctPieces(Receive(blank, 0, msgs).taken)
    ensures Receive(blank, 0, msgs).buf == original
  {
    var result := Receive(blank, 0, msgs);
    TakenAddUp(blank, 0, msgs);
    DistinctIndices(result.taken);
    FullSet(Indices(result.taken), Pieces(|original|));
    ReceiveKeepsLength(blank, 0, msgs);
    forall i | 0 <= i < |original|
      ensures result.buf[i] == original[i]
    {
      var q := i / PIECE;
      HonestPiecesStay(blank, 0, msgs, original, q);
    }
  }

  lemma {:induction false} ReceiveKeepsLength(buf: seq<byte>, received: nat, msgs: seq<Message>)
    ensures |Receive(buf, received, msgs).buf| == |buf|
    decreases |msgs|
  {
    if received < |buf| && msgs != [] {
      match msgs[0]
      case Other => ReceiveKeepsLength(buf, received, msgs[1..]);
      case Data(piece, payload) =>
        if |payload| <= PIECE && InRange(piece, payload, |buf|) {
          ReceiveKeepsLength(Placed(buf, Offset(piece), payload), received + |payload|, msgs[1..]);
        }
      case _ =>
    }
  }

  /** One message per index, each with its right bytes. */
  function Sending(original: seq<byte>, order: seq<nat>): (msgs: seq<Message>)
    requires forall k :: 0 <= k < |order| ==> order[k] < Pieces(|original|)
    ensures |msgs| == |order|
    ensures forall k :: 0 <= k < |order| ==> msgs[k] == Data(order[k], Slice(original, order[k]))
  {
    seq(|order|, k requires 0 <= k < |order| => Data(order[k], Slice(original, order[k])))
  }

  /** Does an order end with the last piece, unless all pieces are full anyway? */
  predicate EndsRight(original: seq<byte>, order: seq<nat>)
    requires order != []
  {
    |original| % PIECE == 0 || order[|order| - 1] == Pieces(|original|) - 1
  }

  /** k pieces have been taken and the rest of a complete, honest transfer is to come. */
  ghost predicate Remaining(original: seq<byte>, order: seq<nat>, buf: seq<byte>, k: nat) {
    && 0 < |buf| == |original| < MAX_SIZE && 0 < |order| == Pieces(|original|) - k
    && Distinct(order) && forall j :: 0 <= j < |order| ==> order[j] < Pieces(|original|)
  }

  /**
   * Which orders of an honest, complete transfer the loop accepts: all of them when the
   * size is a multiple of 16 KiB, and otherwise exactly those that end with the last piece.
   */
  lemma AcceptedOrders(original: seq<byte>, order: seq<nat>, blank: seq<byte>)
    requires 0 < |blank| == |original| < MAX_SIZE && |order| == Pieces(|original|)
    requires Distinct(order) && forall k :: 0 <= k < |order| ==> order[k] < |order|
    ensures Receive(blank, 0, Sending(original, order)).outcome == Complete
       <==> |original| % PIECE == 0 || order[|order| - 1] == |order| - 1
  {
    OrdersFrom(original, order, blank, 0);
  }

  lemma {:induction false} OrdersFrom(original: seq<byte>, order: seq<nat>, buf: seq<byte>, k: nat)
    requires Remaining(original, order, buf, k)
    ensures Receive(buf, k * PIECE, Sending(original, order)).outcome == Complete <==> EndsRight(original, order)
    decreases |order|
  {
    if |order| == 1 {
      LastOne(original, order, buf, k);
    } else if |Slice(original, order[0])| == PIECE {
      var buf' := OneMore(original, order, buf, k);
      OrdersFrom(original, order[1..], buf', k + 1);
    } else {
      TooEarly(original, order, buf, k);
    }
  }

  /** The last message completes the transfer exactly when its piece has the bytes that are missing. */
  lemma LastOne(original: seq<byte>, order: seq<nat>, buf: seq<byte>, k: nat)
    requires Remaining(original, order, buf, k) && |order| == 1
    ensures Receive(buf, k * PIECE, Sending(original, order)).outcome == Complete <==> EndsRight(original, order)
  {
    var p := order[0];
    SliceSize(original, p);
    var buf' := Placed(buf, Offset(p), Slice(original, p));
    var received := k * PIECE + |Slice(original, p)|;
    assert Receive(buf', received, Sending(original, order)[1..]).outcome
        == if received >= |buf| then Complete else ReadFailed;
  }

  /** A full piece before the last message is taken and the loop goes on. */
  lemma OneMore(original: seq<byte>, order: seq<nat>, buf: seq<byte>, k: nat) returns (buf': seq<byte>)
    requires Remaining(original, order, buf, k) && |order| > 1 && |Slice(original, order[0])| == PIECE
    ensures Remaining(original, order[1..], buf', k + 1)
    ensures Receive(buf, k * PIECE, Sending(original, order)).outcome ==
            Receive(buf', (k + 1) * PIECE, Sending(original, order[1..])).outcome
    ensures EndsRight(original, order[1..]) <==> EndsRight(original, order)
  {
    SliceSize(original, order[0]);
    buf' := Placed(buf, Offset(order[0]), Slice(original, order[0]));
    assert Sending(original, order)[1..] == Sending(original, order[1..]);
  }

  /** A short piece before the last message ends the loop. */
  lemma TooEarly(original: seq<byte>, order: seq<nat>, buf: seq<byte>, k: nat)
    requires Remaining(original, order, buf, k) && |order| > 1 && |Slice(original, order[0])| != PIECE
    ensures Receive(buf, k * PIECE, Sending(original, order)).outcome != Complete
    ensures !EndsRight(original, order)
  {
    SliceSize(original, order[0]);
    var length := |Slice(original, order[0])|;
    assert Check(length, k * PIECE + length, |buf|) == Some(TooShort);
  }

  /** Every piece is full but the last, which has what is left. */
  lemma SliceSize(original: seq<byte>, p: nat)
    requires p < Pieces(|original|) && |original| < MAX_SIZE
    ensures var n := Pieces(|original|);
            && (n - 1) * PIECE < |original| <= n * PIECE
            && (|original| % PIECE == 0 <==> |original| == n * PIECE)
            && |Slice(original, p)| == (if p == n - 1 then |original| - (n - 1) * PIECE else PIECE)
            && InRange(p, Slice(original, p), |original|)
  {
  }

  // --------------------------------------------------------------- the class

  /** The client's buffer and counter. */
  class Client {
    const metadata: array<byte>
    var metadataReceived: nat

    constructor (metadataSize: nat)
      requires 0 < metadataSize < MAX_SIZE
      ensures fresh(metadata) && metadata[..] == seq(metadataSize, _ => 0) && metadataReceived == 0
    {
      metadata := new byte[metadataSize](_ => 0);
      metadataReceived := 0;
    }

    /** The loop of Do, copying each piece into the buffer where it belongs. */
    method ReceiveAll(msgs: seq<Message>) returns (outcome: Outcome)
      modifies this, metadata
      ensures outcome == Receive(old(metadata[..]), old(metadataReceived), msgs).outcome
      ensures metadata[..] == Receive(old(metadata[..]), old(metadataReceived), msgs).buf
    {
      ghost var goal := Receive(metadata[..], metadataReceived, msgs);
      var next := 0;
      while metadataReceived < metadata.Length
        invariant next <= |msgs|
        invariant var now := Receive(metadata[..], metadataReceived, msgs[next..]);
                  now.outcome == goal.outcome && now.buf == goal.buf
        decreases |msgs| - next
      {
        if next == |msgs| {
          return ReadFailed;
        }
        var m := msgs[next];
        assert msgs[next..][1..] == msgs[next + 1..];
        next := next + 1;
        match m {
          case Reject => return Rejected;
          case Undecodable => return Undecoded;
          case Other =>
          case Data(piece, payload) =>
            if |payload| > PIECE {
              return TooLong;
            }
            if !InRange(piece, payload, metadata.Length) {
              return Crashed;
            }
            CopyPiece(Offset(piece), payload);
            metadataReceived := metadataReceived + |payload|;
            if |payload| < PIECE && metadataReceived != metadata.Length {
              return TooShort;
            }
            if metadataReceived > metadata.Length {
              return TooMuch;
            }
        }
      }
      return Complete;
    }

    method CopyPiece(at: nat, data: seq<byte>)
      requires at + |data| <= metadata.Length
      modifies metadata
      ensures metadata[..] == Placed(old(metadata[..]), at, data)
    {
      forall i | 0 <= i < |data| {
        metadata[at + i] := data[i];
      }
    }
  }
}
