/** What an arriving packet does to the deliveries, told without its functions: where the next expected
    number comes to stand, and with it what is handed up and what stays in the buffer. */
module Deliveries {
  import opened SeqNo
  import opened Receiver
  import opened InOrder

  /** Everything in `ps` is older than `n`, or is newer and in range of the arriving number `s`. */
  predicate Stops(s: int, ps: seq<Packet>, n: int) {
    forall q :: q in ps ==> q.num < n || (q.num > n && s < q.num + 200)
  }

  /** The least such number from `next` on. */
  predicate IsStop(s: int, ps: seq<Packet>, next: int, n: int) {
    next <= n && Stops(s, ps, n) && forall k :: next <= k < n ==> !Stops(s, ps, k)
  }

  /** The buffer with the packet in it, if that is still awaited and not there. */
  function Offered(p: Packet, rx: Rx): seq<Packet> {
    if p.num >= rx.next && !Has(rx.plist, p.num) then rx.plist + [p] else rx.plist
  }

  /** The next expected number moves up to the first at which nothing older than it is held back for:
      nothing is held with that number, nor anything newer that has dropped out of range.  Everything
      before it is handed up, in order, and everything after it stays in the buffer. */
  ghost predicate DeliveryTold(p: Packet, rx: Rx, rx': Rx) {
    && IsStop(p.num, Offered(p, rx), rx.next, rx'.next)
    && rx.out <= rx'.out && Sorted(HandedUp(rx, rx')) && Sorted(rx'.plist)
    && (forall q :: q in HandedUp(rx, rx') <==> q in Offered(p, rx) && q.num < rx'.next)
    && (forall q :: q in rx'.plist <==> q in Offered(p, rx) && q.num > rx'.next)
  }

  function HandedUp(rx: Rx, rx': Rx): seq<Packet>
    requires rx.out <= rx'.out
  {
    rx'.out[|rx.out|..]
  }

  /** The acknowledgement follows the last packet handed up: to its own number, if it was the expected
      one, but to the arriving number `s` if a gap before it has been given up. */
  predicate AckTold(s: int, next: int, up: seq<Packet>, ack: int, ack': int) {
    if up == [] then ack' == ack
    else
      var expected := if |up| == 1 then next else up[|up| - 2].num + 1;
      var last := up[|up| - 1].num;
      ack' == if last == expected then last else s
  }

  // ---------------------------------------------------------------------------
  // Draining
  // ---------------------------------------------------------------------------

  /** A buffer in order, from the next expected number on. */
  predicate Ahead(rx: Rx) {
    Sorted(rx.plist) && forall q :: q in rx.plist ==> q.num >= rx.next
  }

  lemma PopAhead(rx: Rx)
    requires Ahead(rx) && rx.plist != []
    ensures Ahead(Pop(rx)) && rx.plist[0].num >= rx.next
    ensures forall q :: q in rx.plist <==> q == rx.plist[0] || q in Pop(rx).plist
  {
    assert rx.plist[0] in rx.plist;
    SortedTail(rx.plist);
    assert rx.plist == [rx.plist[0]] + rx.plist[1..];
  }

  /** Where draining would stop, with and without the head. */
  lemma StopsPast(s: int, rx: Rx, n: int)
    requires Ahead(rx) && rx.plist != []
    ensures n > rx.plist[0].num ==> (Stops(s, rx.plist, n) <==> Stops(s, Pop(rx).plist, n))
    ensures Due(s, rx) && rx.next <= n <= rx.plist[0].num ==> !Stops(s, rx.plist, n)
  {
    PopAhead(rx);
    assert rx.plist[0] in rx.plist;
  }

  lemma StopsHere(s: int, rx: Rx)
    requires Ahead(rx) && !Due(s, rx)
    ensures Stops(s, rx.plist, rx.next) && (rx.plist != [] ==> rx.plist[0].num > rx.next)
  {
    forall q | q in rx.plist ensures q.num > rx.next && s < q.num + 200 {
      assert rx.plist[0] in rx.plist;
      var i :| 0 <= i < |rx.plist| && rx.plist[i] == q;
    }
  }

  lemma PoppedParts(rx: Rx, k: nat)
    requires rx.plist != [] && 1 <= k <= |rx.plist|
    ensures Pop(rx).out + Pop(rx).plist[..k - 1] == rx.out + rx.plist[..k]
    ensures Pop(rx).plist[k - 1..] == rx.plist[k..]
  {
  }

  /** Draining hands up the first `k` packets of the buffer. */
  lemma {:induction false} DrainStops(s: int, rx: Rx) returns (k: nat)
    requires Ahead(rx)
    ensures var r := Drain(Unbounded, s, rx);
            && k <= |rx.plist| && r.out == rx.out + rx.plist[..k] && r.plist == rx.plist[k..]
            && IsStop(s, rx.plist, rx.next, r.next)
            && (k > 0 ==> rx.plist[k - 1].num < r.next) && (k < |rx.plist| ==> rx.plist[k].num > r.next)
    decreases |rx.plist|
  {
    assert rx.plist != [] ==> rx.plist[0] in rx.plist;
    DrainStep(s, rx);
    if Due(s, rx) {
      var head := rx.plist[0];
      PopAhead(rx);
      var j := DrainStops(s, Pop(rx));
      k := j + 1;
      PoppedParts(rx, k);
      StopMoves(s, rx, Drain(Unbounded, s, rx).next);
    } else {
      k := 0;
      StopsHere(s, rx);
    }
  }

  lemma StopMoves(s: int, rx: Rx, n: int)
    requires Ahead(rx) && Due(s, rx) && IsStop(s, Pop(rx).plist, rx.plist[0].num + 1, n)
    ensures IsStop(s, rx.plist, rx.next, n)
  {
    PopAhead(rx);
    StopsPast(s, rx, n);
    forall k | rx.next <= k < n ensures !Stops(s, rx.plist, k) {
      StopsPast(s, rx, k);
    }
  }

  // ---------------------------------------------------------------------------
  // Reception
  // ---------------------------------------------------------------------------

  lemma SortedParts(ps: seq<Packet>, k: nat)
    requires Sorted(ps) && k <= |ps|
    ensures Sorted(ps[..k]) && Sorted(ps[k..])
  {
  }

  lemma PartsBounded(ps: seq<Packet>, k: nat, n: int)
    requires Sorted(ps) && k <= |ps| && (k > 0 ==> ps[k - 1].num < n) && (k < |ps| ==> ps[k].num > n)
    ensures (forall q :: q in ps[..k] ==> q.num < n) && forall q :: q in ps[k..] ==> q.num > n
  {
    forall i | 0 <= i < |ps| ensures if i < k then ps[i].num < n else ps[i].num > n {
      if i < k - 1 { assert ps[i].num < ps[k - 1].num; }
      if i > k { assert ps[k].num < ps[i].num; }
    }
  }

  /** A list taken apart is what is below a number and what is above it. */
  lemma Parts(ps: seq<Packet>, k: nat, n: int)
    requires Sorted(ps) && k <= |ps| && (k > 0 ==> ps[k - 1].num < n) && (k < |ps| ==> ps[k].num > n)
    ensures Sorted(ps[..k]) && Sorted(ps[k..])
    ensures forall q :: q in ps[..k] <==> q in ps && q.num < n
    ensures forall q :: q in ps[k..] <==> q in ps && q.num > n
  {
    SortedParts(ps, k);
    PartsBounded(ps, k, n);
    PartsMembers(ps, k, n);
  }

  lemma PartsMembers(ps: seq<Packet>, k: nat, n: int)
    requires k <= |ps|
    requires (forall q :: q in ps[..k] ==> q.num < n) && forall q :: q in ps[k..] ==> q.num > n
    ensures forall q :: q in ps[..k] <==> q in ps && q.num < n
    ensures forall q :: q in ps[k..] <==> q in ps && q.num > n
  {
    assert ps == ps[..k] + ps[k..];
  }

  lemma SameStop(s: int, ps: seq<Packet>, qs: seq<Packet>, next: int, n: int)
    requires IsStop(s, ps, next, n) && forall q :: q in ps <==> q in qs
    ensures IsStop(s, qs, next, n)
  {
    forall k ensures Stops(s, ps, k) <==> Stops(s, qs, k) {}
  }

  /** A packet that is not the next expected one. */
  lemma OtherDelivered(p: Packet, rx: Rx)
    requires Ahead(rx) && p.num != rx.next
    ensures DeliveryTold(p, rx, Receive(Unbounded, p, rx))
  {
    var a := Accept(Unbounded, p, rx);
    if p.num > rx.next { InsertPacketKeeps(rx.plist, p); }
    assert forall q :: q in a.plist <==> q in Offered(p, rx);
    var k := DrainStops(p.num, a);
    var r := Receive(Unbounded, p, rx);
    Parts(a.plist, k, r.next);
    SameStop(p.num, a.plist, Offered(p, rx), rx.next, r.next);
    assert HandedUp(rx, r) == a.plist[..k];
  }

  /** The next expected packet. */
  lemma NextDelivered(p: Packet, rx: Rx)
    requires Ahead(rx) && p.num == rx.next && !Has(rx.plist, p.num)
    ensures DeliveryTold(p, rx, Receive(Unbounded, p, rx))
  {
    var a := Accept(Unbounded, p, rx);
    forall q | q in rx.plist ensures q.num > p.num { HasMember(rx.plist, q); }
    var k := DrainStops(p.num, a);
    var r := Receive(Unbounded, p, rx);
    Parts(rx.plist, k, r.next);
    StopAfter(p, rx, r.next);
    Prepended(p, rx, rx.plist[..k], r);
  }

  /** The packet itself goes up first. */
  lemma Prepended(p: Packet, rx: Rx, up: seq<Packet>, r: Rx)
    requires r.out == rx.out + [p] + up && Sorted(up) && forall q :: q in up ==> p.num < q.num
    ensures rx.out <= r.out && HandedUp(rx, r) == [p] + up && Sorted(HandedUp(rx, r))
  {
    assert r.out == rx.out + ([p] + up);
    SortedCons(p, up);
  }

  lemma StopAfter(p: Packet, rx: Rx, n: int)
    requires p.num == rx.next && !Has(rx.plist, p.num) && IsStop(p.num, rx.plist, rx.next + 1, n)
    ensures IsStop(p.num, Offered(p, rx), rx.next, n)
  {
    assert p in Offered(p, rx);
    forall k | k > rx.next ensures Stops(p.num, rx.plist, k) <==> Stops(p.num, Offered(p, rx), k) {}
  }

  /** The arrival of one packet, from any state in which nothing in the buffer is due. */
  lemma ReceiveTold(p: Packet, rx: Rx)
    requires Ahead(rx) && Settled(rx)
    ensures DeliveryTold(p, rx, Receive(Unbounded, p, rx))
  {
    NextNotBuffered(rx);
    if p.num == rx.next { NextDelivered(p, rx); } else { OtherDelivered(p, rx); }
  }
}
