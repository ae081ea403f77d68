/** In-order, at-most-once delivery, in the true numbering.

    `log` is the history of packets that have arrived, in order of arrival, with losses,
    duplicates and reordering of any kind.
 */
module InOrder {
  import opened SeqNo
  import opened Receiver

  predicate Sorted(ps: seq<Packet>) {
    forall i, j :: 0 <= i < j < |ps| ==> ps[i].num < ps[j].num
  }

  /** `p` is the first packet with its number that arrived. */
  predicate IsFirst(log: seq<Packet>, p: Packet) {
    exists i :: 0 <= i < |log| && log[i] == p && forall j :: 0 <= j < i ==> log[j].num != p.num
  }

  /** What is delivered lies strictly in order below `next`; what is buffered lies strictly in
      order from `next` on; both are first arrivals; and nothing that arrived and is still
      awaited has been lost. */
  ghost predicate Orderly(rx: Rx, log: seq<Packet>) {
    && Sorted(rx.out) && Sorted(rx.plist)
    && (forall p :: p in rx.out ==> p.num < rx.next && IsFirst(log, p))
    && (forall p :: p in rx.plist ==> p.num >= rx.next && IsFirst(log, p))
    && (forall q :: q in log && q.num >= rx.next ==> Has(rx.plist, q.num))
  }

  /** The next expected packet is not in the buffer. */
  predicate Settled(rx: Rx) {
    rx.plist == [] || rx.plist[0].num > rx.next
  }

  /** The delivered numbers are `base`, `base + 1`, ... up to `next`. */
  predicate Contiguous(rx: Rx, base: int) {
    |rx.out| == rx.next - base && forall i :: 0 <= i < |rx.out| ==> rx.out[i].num == base + i
  }

  /** Every packet that has been taken in and not been dropped. */
  ghost function Held(rx: Rx): multiset<Packet> {
    multiset(rx.out) + multiset(rx.plist)
  }

  lemma HasMember(ps: seq<Packet>, p: Packet)
    requires p in ps
    ensures Has(ps, p.num)
  {
    var i :| 0 <= i < |ps| && ps[i] == p;
    assert ps[i].num == p.num;
  }

  lemma {:induction false} InsertSortedAdds(m: Arith, ps: seq<Packet>, p: Packet)
    ensures multiset(InsertSorted(m, ps, p)) == multiset(ps) + multiset{p}
  {
    if ps != [] {
      assert ps == [ps[0]] + ps[1..];
      if !m.Precedes(p.num, ps[0].num) {
        InsertSortedAdds(m, ps[1..], p);
      }
    }
  }

  lemma InsertSortedMembers(m: Arith, ps: seq<Packet>, p: Packet)
    ensures forall q :: q in InsertSorted(m, ps, p) <==> q in ps || q == p
  {
    InsertSortedAdds(m, ps, p);
    forall q ensures q in InsertSorted(m, ps, p) <==> q in ps || q == p {
      assert q in InsertSorted(m, ps, p) <==> q in multiset(InsertSorted(m, ps, p));
    }
  }

  lemma SortedCons(p: Packet, ps: seq<Packet>)
    requires Sorted(ps) && forall q :: q in ps ==> p.num < q.num
    ensures Sorted([p] + ps)
  {
    var l := [p] + ps;
    forall i, j | 0 <= i < j < |l| ensures l[i].num < l[j].num {
      assert l[j] == ps[j - 1];
      if i > 0 { assert l[i] == ps[i - 1]; }
    }
  }

  lemma SortedTail(ps: seq<Packet>)
    requires Sorted(ps) && ps != []
    ensures Sorted(ps[1..]) && forall q :: q in ps[1..] ==> ps[0].num < q.num
  {
  }

  lemma {:induction false} InsertSortedSorts(ps: seq<Packet>, p: Packet)
    requires Sorted(ps) && !Has(ps, p.num)
    ensures Sorted(InsertSorted(Unbounded, ps, p))
  {
    if ps != [] {
      assert ps[0].num != p.num;
      SortedTail(ps);
      if p.num < ps[0].num {
        SortedCons(p, ps);
      } else {
        forall i | 0 <= i < |ps[1..]| ensures ps[1..][i].num != p.num {
          assert ps[1..][i] == ps[i + 1];
        }
        InsertSortedSorts(ps[1..], p);
        InsertSortedMembers(Unbounded, ps[1..], p);
        SortedCons(ps[0], InsertSorted(Unbounded, ps[1..], p));
      }
    }
  }

  /** Insertion keeps the list sorted and adds one packet, unless its number is there already. */
  lemma InsertPacketKeeps(ps: seq<Packet>, p: Packet)
    requires Sorted(ps)
    ensures var qs := InsertPacket(Unbounded, ps, p);
            && Sorted(qs) && Has(qs, p.num)
            && (forall q :: q in qs <==> q in ps || (q == p && !Has(ps, p.num)))
  {
    if !Has(ps, p.num) {
      InsertSortedSorts(ps, p);
      InsertSortedMembers(Unbounded, ps, p);
      HasMember(InsertSorted(Unbounded, ps, p), p);
    }
  }

  lemma HasAll(ps: seq<Packet>, qs: seq<Packet>, n: int)
    requires Has(ps, n) && forall q :: q in ps ==> q in qs
    ensures Has(qs, n)
  {
    var i :| 0 <= i < |ps| && ps[i].num == n;
    assert ps[i] in ps;
    HasMember(qs, ps[i]);
  }

  lemma FirstStays(log: seq<Packet>, p: Packet, q: Packet)
    requires IsFirst(log, p)
    ensures IsFirst(log + [q], p)
  {
    var i :| 0 <= i < |log| && log[i] == p && forall j :: 0 <= j < i ==> log[j].num != p.num;
    assert (log + [q])[i] == p;
  }

  lemma FirstNew(log: seq<Packet>, q: Packet)
    requires !Has(log, q.num)
    ensures IsFirst(log + [q], q)
  {
    assert (log + [q])[|log|] == q;
  }

  /** Taking a packet in. */
  lemma AcceptKeeps(p: Packet, rx: Rx, log: seq<Packet>)
    requires Orderly(rx, log) && Settled(rx)
    ensures Orderly(Accept(Unbounded, p, rx), log + [p])
    ensures rx.next <= Accept(Unbounded, p, rx).next
  {
    var log' := log + [p];
    forall q | IsFirst(log, q) ensures IsFirst(log', q) { FirstStays(log, q, p); }
    if p.num >= rx.next && !Has(rx.plist, p.num) {
      assert !Has(log, p.num);
      FirstNew(log, p);
    }
    if p.num > rx.next {
      InsertPacketKeeps(rx.plist, p);
      var plist' := InsertPacket(Unbounded, rx.plist, p);
      forall q | q in log' && q.num >= rx.next ensures Has(plist', q.num) {
        if q in log { HasAll(rx.plist, plist', q.num); }
      }
    }
  }

  /** The state after the head of the buffer has been delivered, in order or past a gap. */
  function Pop(rx: Rx): Rx
    requires rx.plist != []
  {
    Rx(rx.plist[0].num + 1, rx.plist[1..], rx.out + [rx.plist[0]])
  }

  lemma SortedSnoc(ps: seq<Packet>, p: Packet)
    requires Sorted(ps) && forall q :: q in ps ==> q.num < p.num
    ensures Sorted(ps + [p])
  {
    var l := ps + [p];
    forall i, j | 0 <= i < j < |l| ensures l[i].num < l[j].num {
      assert ps[i] in ps;
    }
  }

  lemma TailHas(ps: seq<Packet>, n: int)
    requires ps != [] && Has(ps, n) && n != ps[0].num
    ensures Has(ps[1..], n)
  {
    var i :| 0 <= i < |ps| && ps[i].num == n;
    assert ps[1..][i - 1].num == n;
  }

  lemma PopKeeps(rx: Rx, log: seq<Packet>)
    requires Orderly(rx, log) && rx.plist != []
    ensures Orderly(Pop(rx), log)
  {
    var head, tail := rx.plist[0], rx.plist[1..];
    assert head in rx.plist;
    SortedTail(rx.plist);
    SortedSnoc(rx.out, head);
    forall q | q in log && q.num > head.num ensures Has(tail, q.num) {
      TailHas(rx.plist, q.num);
    }
    forall p | p in tail ensures p in rx.plist && p.num >= head.num + 1 {}
    forall p | p in Pop(rx).out ensures p.num < head.num + 1 && IsFirst(log, p) {}
  }

  lemma PopHeld(rx: Rx)
    requires rx.plist != []
    ensures Held(Pop(rx)) == Held(rx)
  {
    assert rx.plist == [rx.plist[0]] + rx.plist[1..];
  }

  /** The head of the buffer is delivered when it is next, or when `s` has left it behind. */
  predicate Due(s: int, rx: Rx) {
    rx.plist != [] && (rx.plist[0].num == rx.next || s >= rx.plist[0].num + VALID_RANGE)
  }

  lemma DrainStep(s: int, rx: Rx)
    requires rx.plist != [] ==> rx.plist[0].num >= rx.next
    ensures Drain(Unbounded, s, rx) == if Due(s, rx) then Drain(Unbounded, s, Pop(rx)) else rx
  {
  }

  /** Draining keeps order, forced skips included, and stops with everything that is left
      newer than `next` and within range of `s`. */
  lemma {:induction false} DrainKeeps(s: int, rx: Rx, log: seq<Packet>)
    requires Orderly(rx, log)
    ensures var r := Drain(Unbounded, s, rx);
            && Orderly(r, log) && Settled(r) && rx.next <= r.next
            && (r.plist == [] || s < r.plist[0].num + VALID_RANGE)
    decreases |rx.plist|
  {
    assert rx.plist != [] ==> rx.plist[0] in rx.plist;
    DrainStep(s, rx);
    if Due(s, rx) {
      PopKeeps(rx, log);
      DrainKeeps(s, Pop(rx), log);
    }
  }

  /** Draining neither drops nor invents a packet: "something in the past" never happens. */
  lemma {:induction false} DrainHeld(s: int, rx: Rx, log: seq<Packet>)
    requires Orderly(rx, log)
    ensures Held(Drain(Unbounded, s, rx)) == Held(rx)
    decreases |rx.plist|
  {
    assert rx.plist != [] ==> rx.plist[0] in rx.plist;
    DrainStep(s, rx);
    if Due(s, rx) {
      PopKeeps(rx, log);
      PopHeld(rx);
      DrainHeld(s, Pop(rx), log);
    }
  }

  /** The arrival of one packet: delivery stays in order and at most once, with the payload
      that came first under each number. */
  lemma ReceiveKeeps(p: Packet, rx: Rx, log: seq<Packet>)
    requires Orderly(rx, log) && Settled(rx)
    ensures var r := Receive(Unbounded, p, rx);
            Orderly(r, log + [p]) && Settled(r) && rx.next <= r.next
  {
    AcceptKeeps(p, rx, log);
    DrainKeeps(p.num, Accept(Unbounded, p, rx), log + [p]);
  }

  /** A packet is new if it is still awaited and not buffered. */
  predicate IsNew(m: Arith, p: Packet, rx: Rx) {
    m.Cmp(p.num, rx.next) >= 0 && !Has(rx.plist, p.num)
  }

  /** Conservation: an arrival adds exactly itself, if it is new, to what is delivered or
      buffered, and takes nothing away. */
  lemma ReceiveConserves(p: Packet, rx: Rx, log: seq<Packet>)
    requires Orderly(rx, log) && Settled(rx)
    ensures Held(Receive(Unbounded, p, rx)) ==
            Held(rx) + (if IsNew(Unbounded, p, rx) then multiset{p} else multiset{})
  {
    AcceptKeeps(p, rx, log);
    DrainHeld(p.num, Accept(Unbounded, p, rx), log + [p]);
    if p.num > rx.next {
      InsertSortedAdds(Unbounded, rx.plist, p);
    } else if p.num == rx.next {
      assert !Has(rx.plist, p.num);
    }
  }

  /** After the arrival of `p`, everything in the buffer is within range of it. */
  lemma BufferInRange(p: Packet, rx: Rx, log: seq<Packet>)
    requires Orderly(rx, log) && Settled(rx)
    ensures forall q :: q in Receive(Unbounded, p, rx).plist ==> p.num < q.num + VALID_RANGE
  {
    AcceptKeeps(p, rx, log);
    DrainKeeps(p.num, Accept(Unbounded, p, rx), log + [p]);
  }

  /** The reception of a packet that is not new changes the log only. */
  lemma OldChangesNothing(p: Packet, rx: Rx, log: seq<Packet>)
    requires Orderly(rx, log) && Settled(rx) && !IsNew(Unbounded, p, rx)
    ensures Orderly(rx, log + [p])
  {
    forall q | IsFirst(log, q) ensures IsFirst(log + [p], q) { FirstStays(log, q, p); }
  }

  // ---------------------------------------------------------------------------
  // Without forced skips
  // ---------------------------------------------------------------------------

  lemma {:induction false} DrainContiguous(s: int, rx: Rx, base: int)
    requires Contiguous(rx, base) && Sorted(rx.plist)
    requires forall p :: p in rx.plist ==> rx.next <= p.num && s < p.num + VALID_RANGE
    ensures Contiguous(Drain(Unbounded, s, rx), base)
    decreases |rx.plist|
  {
    if rx.plist != [] {
      var head := rx.plist[0];
      assert head in rx.plist;
      if head.num == rx.next {
        DrainContiguous(s, Rx(rx.next + 1, rx.plist[1..], rx.out + [head]), base);
      }
    }
  }

  /** As long as arrivals stay within range of the next expected number, nothing is skipped. */
  lemma ReceiveContiguous(p: Packet, rx: Rx, log: seq<Packet>, base: int)
    requires Orderly(rx, log) && Settled(rx) && Contiguous(rx, base)
    requires p.num < rx.next + VALID_RANGE
    ensures Contiguous(Receive(Unbounded, p, rx), base)
  {
    AcceptKeeps(p, rx, log);
    DrainContiguous(p.num, Accept(Unbounded, p, rx), base);
  }

  /** The reassembly theorem: without skips the state is a function of the history.  The next
      expected number is the least one that has not arrived, the application holds the first
      arrival of each number before it, and the buffer holds the first arrivals after it. */
  lemma Reassembled(rx: Rx, log: seq<Packet>, base: int)
    requires Orderly(rx, log) && Settled(rx) && Contiguous(rx, base)
    ensures !Has(log, rx.next)
    ensures forall n :: base <= n < rx.next ==> Has(log, n) && IsFirst(log, rx.out[n - base])
    ensures forall n :: n > rx.next ==> (Has(log, n) <==> Has(rx.plist, n))
  {
    forall n | base <= n < rx.next ensures Has(log, n) && IsFirst(log, rx.out[n - base]) {
      assert rx.out[n - base] in rx.out;
      FirstHas(log, rx.out[n - base]);
    }
    forall n | n > rx.next ensures Has(log, n) <==> Has(rx.plist, n) {
      if Has(rx.plist, n) {
        var i :| 0 <= i < |rx.plist| && rx.plist[i].num == n;
        assert rx.plist[i] in rx.plist;
        FirstHas(log, rx.plist[i]);
      }
    }
  }

  lemma FirstHas(log: seq<Packet>, p: Packet)
    requires IsFirst(log, p)
    ensures Has(log, p.num)
  {
    var i :| 0 <= i < |log| && log[i] == p;
    assert log[i].num == p.num;
  }

  lemma NextNotBuffered(rx: Rx)
    requires Sorted(rx.plist) && Settled(rx)
    ensures !Has(rx.plist, rx.next)
  {
    forall i | 0 <= i < |rx.plist| ensures rx.plist[i].num != rx.next {
      assert i == 0 || rx.plist[0].num < rx.plist[i].num;
    }
  }

  lemma InLog(log: seq<Packet>, p: Packet)
    requires IsFirst(log, p)
    ensures p in log
  {
  }

  // ---------------------------------------------------------------------------
  // Up to a FIN
  // ---------------------------------------------------------------------------

  /** Every number between `syn` and `fin` has arrived. */
  ghost predicate AllArrived(log: seq<Packet>, syn: int, fin: int) {
    forall n :: syn < n < fin ==> Has(log, n)
  }

  predicate LogBelow(log: seq<Packet>, fin: int) {
    forall p :: p in log ==> p.num < fin
  }

  lemma HasBelow(log: seq<Packet>, fin: int, n: int)
    requires LogBelow(log, fin) && n >= fin
    ensures !Has(log, n)
  {
  }

  lemma BufferBelow(rx: Rx, log: seq<Packet>, fin: int)
    requires Orderly(rx, log) && LogBelow(log, fin) && rx.plist != []
    ensures rx.plist[0].num < fin
  {
    assert rx.plist[0] in rx.plist;
    InLog(log, rx.plist[0]);
  }
}
