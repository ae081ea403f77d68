/** Fragmentation of a disseminated message, and its reassembly.

    The sender cuts the message into fragments that fit a packet; the receiver collects them, in
    the order in which dissemination hands them over, in a buffer of the announced size.
 */
module Fragment {
  import opened Receiver

  /** What is left of a 76-byte packet for data: 6 bytes of link overhead, 6 of fragment header
      and 10 of dissemination header go off. */
  const MAX_LENGTH := 54

  /** A fragment as it is sent: index, count and length in 8 bits, total size in 16. */
  datatype Piece = Piece(index: int, total: int, length: int, totBytes: int, data: Payload)

  // ---------------------------------------------------------------------------
  // Sending
  // ---------------------------------------------------------------------------

  function Count(len: nat): (n: nat)
    ensures n >= 1
  {
    if len > MAX_LENGTH then 1 + Count(len - MAX_LENGTH) else 1
  }

  function Min(a: int, b: int): int { if a <= b then a else b }

  /** The `i`th fragment, counting from 1. */
  function PieceAt(msg: Payload, i: nat): Piece
    requires 1 <= i <= Count(|msg|)
  {
    CountIsCeiling(|msg|);
    var data := msg[(i - 1) * MAX_LENGTH..Min(i * MAX_LENGTH, |msg|)];
    Piece(i % 256, Count(|msg|) % 256, |data| % 256, |msg| % 65536, data)
  }

  function Pieces(msg: Payload): seq<Piece> {
    seq(Count(|msg|), i requires 0 <= i < Count(|msg|) => PieceAt(msg, i + 1))
  }

  /** As many fragments as are needed, and no more: 54 bytes go into each. */
  lemma {:induction false} CountIsCeiling(len: nat)
    ensures (Count(len) - 1) * MAX_LENGTH <= len <= Count(len) * MAX_LENGTH
    ensures len > 0 ==> (Count(len) - 1) * MAX_LENGTH < len && Count(len) == (len + 53) / 54
  {
    if len > MAX_LENGTH {
      CountIsCeiling(len - MAX_LENGTH);
    }
  }

  datatype SendResult = Sent(pieces: seq<Piece>) | Refused(code: int)

  /** Cuts the message up and sends the fragments in order.  An empty message is refused. */
  method Send(msg: Payload) returns (r: SendResult)
    ensures r == if msg == [] then Refused(-31) else Sent(Pieces(msg))
  {
    var totlen := |msg|;
    if totlen <= 0 {
      return Refused(-31);
    }
    var tmplen := totlen;
    var numFrag := 1;
    while tmplen > MAX_LENGTH
      invariant 0 < tmplen <= totlen && numFrag + Count(tmplen) == 1 + Count(totlen)
      invariant totlen - tmplen == (numFrag - 1) * MAX_LENGTH
    {
      tmplen := tmplen - MAX_LENGTH;
      numFrag := numFrag + 1;
    }   // now tmplen is the length of the last fragment
    var nextPtr := 0;
    var sent: seq<Piece> := [];
    var i := 1;
    while i <= numFrag
      invariant 1 <= i <= numFrag + 1 && numFrag == Count(totlen)
      invariant nextPtr == if i <= numFrag then (i - 1) * MAX_LENGTH else totlen
      invariant sent == Pieces(msg)[..i - 1]
    {
      var thislen := if i == numFrag then tmplen else MAX_LENGTH;
      var data := msg[nextPtr..nextPtr + thislen];
      assert data == PieceAt(msg, i).data;
      sent := sent + [Piece(i % 256, numFrag % 256, thislen % 256, totlen % 65536, data)];
      nextPtr := nextPtr + thislen;
      i := i + 1;
    }
    return Sent(sent);
  }

  // ---------------------------------------------------------------------------
  // Receiving
  // ---------------------------------------------------------------------------

  /** No message under way, or one of `totBytes` bytes of which `got` has been collected. */
  datatype State = Idle | Busy(totBytes: int, got: Payload)

  /** What is handed up: a buffer of `totBytes` bytes that begins with `got`. */
  datatype Handed = Handed(totBytes: int, got: Payload)

  /** Takes a fragment in.  A first fragment abandons a message under way; any other one is
      dropped when no message is. */
  function Collect(st: State, f: Piece): State {
    if f.index == 1 then Busy(f.totBytes, f.data)
    else if st.Idle? then Idle
    else Busy(st.totBytes, st.got + f.data)
  }

  function Take(st: State, f: Piece): (State, seq<Handed>) {
    if |f.data| != f.length then (st, [])
    else
      var st' := Collect(st, f);
      if st'.Busy? && f.total == f.index then (Idle, [Handed(st'.totBytes, st'.got)])
      else (st', [])
  }

  /** Feeds fragments to the receiver.  Returns its state and all that has been handed up. */
  function Feed(st: State, fs: seq<Piece>): (State, seq<Handed>) {
    if fs == [] then (st, [])
    else
      var (s1, up1) := Feed(st, fs[..|fs| - 1]);
      var (s2, up2) := Take(s1, fs[|fs| - 1]);
      (s2, up1 + up2)
  }

  // ---------------------------------------------------------------------------
  // The round trip
  // ---------------------------------------------------------------------------

  /** The first fragment that looks like the last one: the 8-bit index meets the 8-bit count. */
  function FirstEnd(n: nat): nat
    requires n >= 1
  {
    if n % 256 == 0 then 256 else n % 256
  }

  /** The bytes in the first `k` fragments. */
  function Upto(msg: Payload, k: nat): Payload {
    msg[..Min(k * MAX_LENGTH, |msg|)]
  }

  lemma FirstEndProps(n: nat)
    requires n >= 1
    ensures 1 <= FirstEnd(n) <= n && FirstEnd(n) <= 256 && (FirstEnd(n) == n <==> n <= 256)
    ensures forall k :: 1 <= k <= FirstEnd(n) ==>
              (k % 256 == n % 256 <==> k == FirstEnd(n)) && (k % 256 == 1 <==> k == 1)
  {
  }

  lemma PieceExtends(msg: Payload, k: nat)
    requires msg != [] && 1 <= k <= Count(|msg|)
    ensures Upto(msg, k - 1) + PieceAt(msg, k).data == Upto(msg, k)
    ensures |PieceAt(msg, k).data| <= MAX_LENGTH && PieceAt(msg, k).length == |PieceAt(msg, k).data|
    ensures k < Count(|msg|) ==> |Upto(msg, k)| == k * MAX_LENGTH < |msg|
    ensures k == Count(|msg|) ==> Upto(msg, k) == msg
  {
    CountIsCeiling(|msg|);
  }

  /** Up to the first fragment that looks like the last one, the receiver collects the message,
      whatever state it was in before. */
  lemma {:induction false} FeedPrefix(st: State, msg: Payload, k: nat)
    requires msg != [] && 1 <= k <= FirstEnd(Count(|msg|))
    ensures k <= Count(|msg|)
    ensures Feed(st, Pieces(msg)[..k]) ==
            if k < FirstEnd(Count(|msg|)) then (Busy(|msg| % 65536, Upto(msg, k)), [])
            else (Idle, [Handed(|msg| % 65536, Upto(msg, k))])
  {
    var n := Count(|msg|);
    FirstEndProps(n);
    var fs := Pieces(msg)[..k];
    assert fs[..k - 1] == Pieces(msg)[..k - 1] && fs[k - 1] == PieceAt(msg, k);
    PieceExtends(msg, k);
    var f := PieceAt(msg, k);
    if k > 1 { FeedPrefix(st, msg, k - 1); } else { assert fs[..0] == []; }
    var before := Feed(st, fs[..k - 1]);
    assert before.1 == [];
    CollectPiece(before.0, msg, k);
    TakePiece(before.0, f, |msg| % 65536, Upto(msg, k));
    assert Feed(st, fs).1 == [] + Take(before.0, f).1 == Take(before.0, f).1;
  }

  lemma CollectPiece(before: State, msg: Payload, k: nat)
    requires msg != [] && 1 <= k <= FirstEnd(Count(|msg|)) && k <= Count(|msg|)
    requires k > 1 ==> before == Busy(|msg| % 65536, Upto(msg, k - 1))
    ensures Collect(before, PieceAt(msg, k)) == Busy(|msg| % 65536, Upto(msg, k))
  {
    FirstEndProps(Count(|msg|));
    PieceExtends(msg, k);
    var f := PieceAt(msg, k);
    if k == 1 { assert Upto(msg, 0) == [] && [] + f.data == f.data; }
  }

  lemma TakePiece(before: State, f: Piece, tot: int, got: Payload)
    requires |f.data| == f.length && Collect(before, f) == Busy(tot, got)
    ensures Take(before, f) == if f.total == f.index then (Idle, [Handed(tot, got)]) else (Busy(tot, got), [])
  {
  }

  lemma {:induction false} FeedGrows(st: State, fs: seq<Piece>, k: nat)
    requires k <= |fs|
    ensures Feed(st, fs[..k]).1 <= Feed(st, fs).1
    decreases |fs| - k
  {
    if k == |fs| {
      assert fs[..k] == fs;
    } else {
      FeedGrows(st, fs, k + 1);
      assert fs[..k + 1][..k] == fs[..k];
    }
  }

  /** The round trip: from any state of the receiver, even with an abandoned message in the buffer,
      the fragments of a message hand up exactly that message, once, and leave the receiver idle,
      exactly if there are no more than 256 of them. */
  lemma RoundTrip(st: State, msg: Payload)
    requires msg != []
    ensures Feed(st, Pieces(msg)) == (Idle, [Handed(|msg|, msg)]) <==> Count(|msg|) <= 256
  {
    var n := Count(|msg|);
    var first := FirstEnd(n);
    FirstEndProps(n);
    FeedPrefix(st, msg, first);
    CountIsCeiling(|msg|);
    PieceExtends(msg, first);
    if n <= 256 {
      assert Pieces(msg)[..n] == Pieces(msg);
    } else {
      FeedGrows(st, Pieces(msg), first);
      assert Feed(st, Pieces(msg)).1[0].got == Upto(msg, first);
    }
  }

  /** The sizes of the fragments add up to the size of the message. */
  function TotalLength(fs: seq<Piece>): nat {
    if fs == [] then 0 else TotalLength(fs[..|fs| - 1]) + |fs[|fs| - 1].data|
  }

  lemma {:induction false} SizesAddUp(msg: Payload, k: nat)
    requires msg != [] && k <= Count(|msg|)
    ensures TotalLength(Pieces(msg)[..k]) == |Upto(msg, k)|
    ensures k == Count(|msg|) ==> TotalLength(Pieces(msg)) == |msg|
  {
    if k > 0 {
      SizesAddUp(msg, k - 1);
      PieceExtends(msg, k);
      assert Pieces(msg)[..k][..k - 1] == Pieces(msg)[..k - 1];
    }
    if k == Count(|msg|) { assert Pieces(msg)[..k] == Pieces(msg); }
  }

  // ---------------------------------------------------------------------------
  // Fragments that are out of place
  // ---------------------------------------------------------------------------

  /** The fragments whose stated length is that of their data. */
  function Intact(fs: seq<Piece>): seq<Piece> {
    if fs == [] then []
    else Intact(fs[..|fs| - 1]) + if |fs[|fs| - 1].data| == fs[|fs| - 1].length then [fs[|fs| - 1]] else []
  }

  /** Fragments of another length than stated change nothing, wherever they come. */
  lemma {:induction false} OnlyIntactCount(st: State, fs: seq<Piece>)
    ensures Feed(st, fs) == Feed(st, Intact(fs))
  {
    if fs != [] {
      var before, f := fs[..|fs| - 1], fs[|fs| - 1];
      OnlyIntactCount(st, before);
      if |f.data| == f.length {
        assert (Intact(before) + [f])[..|Intact(before)|] == Intact(before);
      } else {
        assert Intact(before) + [] == Intact(before);
        assert Feed(st, before).1 + [] == Feed(st, before).1;
      }
    }
  }

  /** Until a first fragment comes, an idle receiver drops everything. */
  lemma {:induction false} NothingWithoutFirst(fs: seq<Piece>)
    requires forall i :: 0 <= i < |fs| ==> fs[i].index != 1
    ensures Feed(Idle, fs) == (Idle, [])
  {
    if fs != [] {
      NothingWithoutFirst(fs[..|fs| - 1]);
      assert Take(Idle, fs[|fs| - 1]) == (Idle, []) && [] + Feed(Idle, fs[..|fs| - 1]).1 == [];
    }
  }

  // ---------------------------------------------------------------------------
  // The reassembly buffer
  // ---------------------------------------------------------------------------

  /** The fragment fits into the buffer: the copy stays inside it. */
  predicate Fits(st: State, f: Piece) {
    |f.data| == f.length ==>
      if f.index == 1 then |f.data| <= f.totBytes
      else st.Busy? ==> |st.got| + |f.data| <= st.totBytes
  }

  /** The fragments of a message all fit, each where it comes in the reassembly. */
  ghost predicate AllFit(st: State, msg: Payload) {
    forall k :: 0 <= k < Count(|msg|) ==> Fits(Feed(st, Pieces(msg)[..k]).0, Pieces(msg)[k])
  }

  /** The position of fragment `k` since the 8-bit index was last 1. */
  function Position(k: nat): nat
    requires k >= 1
  {
    (k - 1) % 256 + 1
  }

  lemma ModStep(k: nat)
    requires k >= 1
    ensures k % 256 == if (k - 1) % 256 == 255 then 0 else (k - 1) % 256 + 1
  {
  }

  lemma PositionProps(k: nat, n: nat)
    requires 1 <= k && 1 <= n
    ensures k % 256 == 1 <==> Position(k) == 1
    ensures k % 256 == n % 256 <==> Position(k) == FirstEnd(n)
    ensures Position(k) > 1 ==> k >= 2 && Position(k - 1) == Position(k) - 1
  {
    ModStep(k);
    if k >= 2 { ModStep(k - 1); }
  }

  /** The state of the receiver inside a message: it starts afresh whenever the 8-bit index is 1, and
      is idle from the first fragment that looks like the last one up to there. */
  lemma {:induction false} FeedState(st: State, msg: Payload, k: nat)
    requires msg != [] && 1 <= k < Count(|msg|)
    ensures var s := Feed(st, Pieces(msg)[..k]).0;
            if Position(k) < FirstEnd(Count(|msg|))
            then s.Busy? && s.totBytes == |msg| % 65536 && |s.got| == Position(k) * MAX_LENGTH
            else s.Idle?
  {
    var n := Count(|msg|);
    var fs, f := Pieces(msg)[..k], PieceAt(msg, k);
    FirstEndProps(n);
    PositionProps(k, n);
    FullPiece(msg, k);
    assert fs[..k - 1] == Pieces(msg)[..k - 1] && fs[k - 1] == f;
    if k > 1 { FeedState(st, msg, k - 1); }
    TakeState(Feed(st, fs[..k - 1]).0, f, Position(k), FirstEnd(n), |msg| % 65536);
  }

  /** A full fragment at position `j`, after the one at the position before it. */
  lemma TakeState(before: State, f: Piece, j: nat, first: nat, tot: int)
    requires |f.data| == f.length == MAX_LENGTH && f.totBytes == tot && 1 <= j && 1 <= first
    requires (f.index == 1 <==> j == 1) && (f.total == f.index <==> j == first)
    requires j > 1 ==>
               if j - 1 < first then before.Busy? && before.totBytes == tot && |before.got| == (j - 1) * MAX_LENGTH
               else before.Idle?
    ensures var s := Take(before, f).0;
            if j < first then s.Busy? && s.totBytes == tot && |s.got| == j * MAX_LENGTH else s.Idle?
  {
  }

  lemma Scale(a: int, b: int)
    requires a <= b
    ensures a * MAX_LENGTH <= b * MAX_LENGTH
  {
  }

  lemma CutSize(len: nat, k: nat)
    requires len > 0 && 1 <= k <= Count(len)
    ensures 0 <= (k - 1) * MAX_LENGTH < len
    ensures Min(k * MAX_LENGTH, len) - (k - 1) * MAX_LENGTH <= MAX_LENGTH
    ensures k < Count(len) ==> k * MAX_LENGTH < len
  {
    CountIsCeiling(len);
    Scale(k - 1, Count(len) - 1);
    if k < Count(len) { Scale(k, Count(len) - 1); }
  }

  /** All fragments but the last one are full. */
  lemma FullPiece(msg: Payload, k: nat)
    requires msg != [] && 1 <= k <= Count(|msg|)
    ensures |PieceAt(msg, k).data| <= MAX_LENGTH && PieceAt(msg, k).length == |PieceAt(msg, k).data|
    ensures k < Count(|msg|) ==> |PieceAt(msg, k).data| == MAX_LENGTH
    ensures (k - 1) * MAX_LENGTH + |PieceAt(msg, k).data| <= |msg|
  {
    CutSize(|msg|, k);
    assert |PieceAt(msg, k).data| == Min(k * MAX_LENGTH, |msg|) - (k - 1) * MAX_LENGTH;
  }

  lemma PieceFits(st: State, msg: Payload, k: nat)
    requires msg != [] && k < Count(|msg|)
    ensures var n, j := Count(|msg|), Position(k + 1);
            Fits(Feed(st, Pieces(msg)[..k]).0, Pieces(msg)[k]) <==>
              j > FirstEnd(n) || (j - 1) * MAX_LENGTH + |PieceAt(msg, k + 1).data| <= |msg| % 65536
  {
    var n := Count(|msg|);
    PositionProps(k + 1, n);
    FullPiece(msg, k + 1);
    assert Pieces(msg)[k] == PieceAt(msg, k + 1);
    FirstEndProps(n);
    if k > 0 { FeedState(st, msg, k); }
  }

  lemma SmallCount(len: nat)
    requires len > 0 && Count(len) <= 256
    ensures len <= 65535 && len % 65536 == len
  {
    CountIsCeiling(len);
    Scale(Count(len), 256);
  }

  lemma SmallPosition(k: nat)
    requires 1 <= k <= 256
    ensures Position(k) == k
  {
  }

  lemma FewFitAt(st: State, msg: Payload, k: nat)
    requires msg != [] && k < Count(|msg|) <= 256
    ensures Fits(Feed(st, Pieces(msg)[..k]).0, Pieces(msg)[k])
  {
    SmallCount(|msg|);
    SmallPosition(k + 1);
    FullPiece(msg, k + 1);
    PieceFits(st, msg, k);
  }

  /** Up to 256 fragments fit what is announced, which is then the size of the message. */
  lemma FewFit(st: State, msg: Payload)
    requires msg != [] && Count(|msg|) <= 256
    ensures AllFit(st, msg)
  {
    forall k | 0 <= k < Count(|msg|) ensures Fits(Feed(st, Pieces(msg)[..k]).0, Pieces(msg)[k]) {
      FewFitAt(st, msg, k);
    }
  }

  /** Of more than 256, those before the first that looks like the last one are full. */
  lemma ManyFit(st: State, msg: Payload, k: nat)
    requires msg != [] && Count(|msg|) > 256 && k < Count(|msg|)
    requires FirstEnd(Count(|msg|)) * MAX_LENGTH <= |msg| % 65536
    ensures Fits(Feed(st, Pieces(msg)[..k]).0, Pieces(msg)[k])
  {
    PieceFits(st, msg, k);
    FullPiece(msg, k + 1);
    if Position(k + 1) <= FirstEnd(Count(|msg|)) { Scale(Position(k + 1), FirstEnd(Count(|msg|))); }
  }

  lemma FirstEndFits(st: State, msg: Payload, first: nat)
    requires msg != [] && Count(|msg|) > 256 && first == FirstEnd(Count(|msg|)) && 1 <= first <= 256
    requires Fits(Feed(st, Pieces(msg)[..first - 1]).0, Pieces(msg)[first - 1])
    ensures first * MAX_LENGTH <= |msg| % 65536
  {
    PieceFits(st, msg, first - 1);
    FullPiece(msg, first);
    SmallPosition(first);
  }

  lemma ManyFitOnly(st: State, msg: Payload)
    requires msg != [] && Count(|msg|) > 256 && AllFit(st, msg)
    ensures FirstEnd(Count(|msg|)) * MAX_LENGTH <= |msg| % 65536
  {
    FirstEndProps(Count(|msg|));
    FirstEndFits(st, msg, FirstEnd(Count(|msg|)));
  }

  /** When they all fit, from any state of the receiver: exactly if there are no more than 256 of
      them, or those up to the first that looks like the last one fit the announced size, which is
      cut to 16 bits. */
  lemma PiecesFit(st: State, msg: Payload)
    requires msg != []
    ensures var n := Count(|msg|);
            AllFit(st, msg) <==> n <= 256 || FirstEnd(n) * MAX_LENGTH <= |msg| % 65536
  {
    var n := Count(|msg|);
    if n <= 256 {
      FewFit(st, msg);
    } else {
      if AllFit(st, msg) { ManyFitOnly(st, msg); }
      if FirstEnd(n) * MAX_LENGTH <= |msg| % 65536 {
        forall k | 0 <= k < n ensures Fits(Feed(st, Pieces(msg)[..k]).0, Pieces(msg)[k]) { ManyFit(st, msg, k); }
      }
    }
  }

  lemma ShortAnnounced(len: nat)
    requires 0 < len <= 65535 && Count(len) > 256
    ensures FirstEnd(Count(len)) * MAX_LENGTH <= len % 65536
  {
    CountIsCeiling(len);
    Scale(256, Count(len) - 1);
    Scale(FirstEnd(Count(len)), 256);
  }

  /** The fragments of a message of up to 65535 bytes always do. */
  lemma ShortPiecesFit(st: State, msg: Payload)
    requires msg != [] && |msg| <= 65535
    ensures AllFit(st, msg)
  {
    PiecesFit(st, msg);
    if Count(|msg|) > 256 { ShortAnnounced(|msg|); }
  }

  class Reassembler {
    var packet: array?<byte>
    var nextPtr: nat
    var totFragment: int
    var totBytes: int
    var handed: seq<Handed>

    ghost predicate Valid()
      reads this
    {
      packet != null ==> nextPtr <= packet.Length == totBytes
    }

    ghost function View(): State
      requires Valid()
      reads this, packet
    {
      if packet == null then Idle else Busy(totBytes, packet[..nextPtr])
    }

    constructor ()
      ensures Valid() && View() == Idle && handed == []
    {
      packet, nextPtr, totFragment, totBytes, handed := null, 0, 0, 0, [];
    }

    /** Copies data to where the pointer is, and moves the pointer. */
    method Copy(data: Payload)
      requires Valid() && packet != null && nextPtr + |data| <= packet.Length
      modifies this`nextPtr, packet
      ensures Valid() && View() == Busy(totBytes, old(View()).got + data)
    {
      ghost var got := packet[..nextPtr];
      var k := 0;
      while k < |data|
        invariant 0 <= k <= |data| && nextPtr == old(nextPtr) && packet[..nextPtr + k] == got + data[..k]
      {
        packet[nextPtr + k] := data[k];
        k := k + 1;
      }
      nextPtr := nextPtr + |data|;
    }

    method ReceivePiece(f: Piece)
      requires Valid() && Fits(View(), f)
      modifies this, packet
      ensures Valid() && (packet == old(packet) || packet == null || fresh(packet))
      ensures View() == Take(old(View()), f).0
      ensures handed == old(handed) + Take(old(View()), f).1
    {
      if |f.data| != f.length {
        return;
      }
      if f.index == 1 {
        packet := new byte[f.totBytes];
        totFragment := f.total;
        totBytes := f.totBytes;
        nextPtr := 0;
        assert View().got == [];
        Copy(f.data);
      } else {
        if packet == null {
          return;
        }
        Copy(f.data);
      }
      assert View() == Collect(old(View()), f);
      if f.total == f.index {
        handed := handed + [Handed(totBytes, packet[..nextPtr])];
        packet := null;
        totBytes := 0;
        totFragment := 0;
        nextPtr := 0;
      }
    }
  }
}
