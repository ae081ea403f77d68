/** When a rate-controlled connection acknowledges the FIN, and what the application has then. */
module RcrtFin {
  import opened SeqNo
  import opened Receiver
  import opened InOrder
  import opened Ledger
  import opened Rcrt
  import opened RcrtRuns

  /** The sender closes with the FIN `fin`, and numbers its data below it. */
  predicate ClosedBy(es: seq<Event>, fin: int) {
    forall i :: 0 <= i < |es| ==>
      (es[i].Fin? ==> es[i].num == fin) && (es[i].Data? ==> es[i].p.num < fin)
  }

  predicate Acked(c: Conn) {
    exists i :: 0 <= i < |c.sent| && c.sent[i].FinAck?
  }

  lemma ClosedByPrefix(es: seq<Event>, fin: int)
    requires ClosedBy(es, fin) && es != []
    ensures ClosedBy(es[..|es| - 1], fin) && ClosedBy([es[|es| - 1]], fin)
  {
  }

  lemma {:induction false} LogClosed(es: seq<Event>, fin: int)
    requires CarriedRun(Unbounded, es) && ClosedBy(es, fin)
    ensures LogBelow(Log(Unbounded, es), fin) && Fins(es) <= {fin}
    decreases |es|
  {
    if es != [] {
      ClosedByPrefix(es, fin);
      LogClosed(es[..|es| - 1], fin);
    }
  }

  /** After a FIN the connection waits for something that is missing, or has acknowledged it and
      is closed. */
  ghost predicate WaitInv(c: Conn, fin: int, fins: set<int>) {
    && c.last <= fin && (fins != {} ==> c.last == fin)
    && (fins != {} <==> c.phase == FinRetxWait || Acked(c))
    && (c.phase == FinRetxWait && !Acked(c) ==> c.missing != [])
    && (Acked(c) ==> c.missing == [])
    && (c.open <==> !Acked(c))
  }

  /** Nothing listed as missing is out of range: it has not been delivered. */
  lemma NothingExpires(c: Conn, log: seq<Packet>, fins: set<int>)
    requires Inv(c, log, fins) && NearInv(c)
    ensures SendFeedback(Unbounded, c).missing == c.missing
  {
    Reassembled(c.rx, log, 1);
    forall n | n in c.missing ensures c.last < n + VALID_RANGE {
      assert n >= c.rx.next || Has(log, n);
    }
    FillExact(NACK_SLOTS, c.last, c.missing);
    NoneExpired(c.last, c.missing);
  }

  lemma AckedSnoc(c: Conn, r: Reply)
    ensures Acked(c.(sent := c.sent + [r])) <==> Acked(c) || r.FinAck?
  {
    var c' := c.(sent := c.sent + [r]);
    assert forall j :: 0 <= j < |c.sent| ==> c'.sent[j] == c.sent[j];
    assert c'.sent[|c.sent|] == r;
  }

  lemma FeedbackAcks(c: Conn, log: seq<Packet>, fins: set<int>)
    requires Inv(c, log, fins) && NearInv(c)
    ensures var c' := SendFeedback(Unbounded, c);
            c'.missing == c.missing && (Acked(c') <==> Acked(c)) && c'.phase == c.phase && c'.open == c.open && c'.last == c.last
  {
    NothingExpires(c, log, fins);
    var items := Fill(Unbounded, NACK_SLOTS, c.last, c.missing, []).1;
    AckedSnoc(c, Feedback(c.last, c.ack, items));
  }

  lemma WaitFin(c: Conn, fin: int, log: seq<Packet>, fins: set<int>)
    requires Inv(c, log, fins) && NearInv(c) && WaitInv(c, fin, fins)
    requires 1 <= fin < c.rx.next + VALID_RANGE
    ensures WaitInv(OnFin(Unbounded, c, fin), fin, fins + {fin})
  {
    var c1 := Advance(Unbounded, c, fin);
    AdvanceBooks(c, fin, log, fins);
    if c1.missing == [] {
      AckedSnoc(c1, FinAck(c1.last));
    } else {
      var c2 := if c1.phase == FinRetxWait then c1 else c1.(phase := FinRetxWait, timeouts := 0);
      FeedbackAcks(c2, log, fins + {fin});
    }
  }

  /** Below the newest number, and with nothing missing, nothing becomes missing. */
  lemma NoGap(c: Conn, p: Packet, retx: bool)
    requires 1 <= p.num && Unbounded.LastSeen(c.last) && p.num <= c.last && c.missing == []
    ensures TakeIn(Unbounded, c, p, retx).missing == []
  {
  }

  lemma WaitAnswer(c: Conn, fin: int, feedback: bool, log: seq<Packet>, fins: set<int>)
    requires Inv(c, log, fins) && NearInv(c)
    requires c.last <= fin && (fins != {} ==> c.last == fin)
    requires fins != {} <==> c.phase == FinRetxWait || Acked(c)
    requires (Acked(c) ==> c.missing == []) && (c.open <==> !Acked(c))
    ensures WaitInv(AnswerData(Unbounded, c, feedback), fin, fins)
  {
    AckedSnoc(c, FinAck(c.last));
    FeedbackAcks(Settle(c), log, fins);
  }

  lemma WaitData(c: Conn, fin: int, p: Packet, retx: bool, wanted: bool, log: seq<Packet>, fins: set<int>)
    requires Inv(c, log, fins) && NearInv(c) && WaitInv(c, fin, fins)
    requires 1 <= p.num < c.rx.next + VALID_RANGE && p.num < fin && !Refused(Unbounded, c, p)
    ensures WaitInv(OnData(Unbounded, c, p, retx, wanted), fin, fins)
  {
    var c1 := TakeIn(Unbounded, c, p, retx);
    TakeInInv(c, p, retx, log, fins);
    TakeInNear(c, p, retx, log, fins);
    assert c1.phase == c.phase && c1.sent == c.sent && c1.open == c.open && c1.last <= fin;
    if c.missing == [] && c.last == fin { NoGap(c, p, retx); }
    WaitAnswer(c1, fin, Found(Unbounded, c, p.num) != [] || wanted, log + [p], fins);
  }

  lemma TakeInNear(c: Conn, p: Packet, retx: bool, log: seq<Packet>, fins: set<int>)
    requires Inv(c, log, fins) && NearInv(c) && 1 <= p.num < c.rx.next + VALID_RANGE
    ensures NearInv(TakeIn(Unbounded, c, p, retx))
  {
    ReceiveContiguous(p, c.rx, log, 1);
    ReceiveKeeps(p, c.rx, log);
    ReceiveAckExact(p, c.rx, log);
  }

  lemma WaitStep(c: Conn, fin: int, e: Event, log: seq<Packet>, fins: set<int>)
    requires Inv(c, log, fins) && NearInv(c) && WaitInv(c, fin, fins)
    requires CarriedEvent(Unbounded, e) && Near(c, e) && ClosedBy([e], fin)
    ensures WaitInv(Step(Unbounded, c, e), fin, fins + FinOf(e))
  {
    assert [e][0] == e;
    assert fins + {} == fins;
    match e
    case Fin(n) => WaitFin(c, fin, log, fins);
    case Data(p, retx, wanted) => if !Refused(Unbounded, c, p) { WaitData(c, fin, p, retx, wanted, log, fins); }
    case Timeout(decreased) =>
      var t := c.timeouts + 1;
      FeedbackAcks(c.(timeouts := if t >= 2 && decreased then 0 else t), log, fins);
    case Syn => AckedSnoc(c, SynAck);
  }

  lemma {:induction false} RunWait(fin: int, es: seq<Event>)
    requires CarriedRun(Unbounded, es) && 0 < fin && NearRun(es) && ClosedBy(es, fin)
    ensures WaitInv(Run(Unbounded, es), fin, Fins(es))
    decreases |es|
  {
    if es != [] {
      var k := |es| - 1;
      ClosedByPrefix(es, fin);
      RunWait(fin, es[..k]);
      RunInv(es[..k]);
      RunNear(es[..k]);
      WaitStep(Run(Unbounded, es[..k]), fin, es[k], Log(Unbounded, es[..k]), Fins(es[..k]));
    }
  }

  /** The connection acknowledges the FIN, and is closed, exactly when the FIN has been received and
      every number before it has come, in whatever order, however often, and however flagged, at
      least once no more than the greatest jump ahead of the newest number. */
  lemma FinAckedExactly(fin: int, es: seq<Event>)
    requires CarriedRun(Unbounded, es) && 0 < fin && NearRun(es) && ClosedBy(es, fin)
    ensures Acked(Run(Unbounded, es)) <==> fin in Fins(es) && forall n :: 0 < n < fin ==> Came(es, n)
    ensures Acked(Run(Unbounded, es)) <==> !Run(Unbounded, es).open
  {
    var c := Run(Unbounded, es);
    RunWait(fin, es);
    RunInv(es);
    LogClosed(es, fin);
    StateIsHistory(es);
    if Acked(c) {
      var f :| f in Fins(es);
      forall n | 0 < n < fin ensures Came(es, n) {
        assert n !in c.missing && Tells(c, Log(Unbounded, es), Fins(es), n, Came(es, n));
      }
    } else if fin in Fins(es) {
      var n := c.missing[0];
      assert n in c.missing && 0 < n < fin && Tells(c, Log(Unbounded, es), Fins(es), n, Came(es, n));
    }
  }

  predicate NumIsShort(e: Event) {
    e.Data? || e.Fin? ==> NumOf(e) <= VALID_RANGE
  }

  /** Every number of a short run is near. */
  lemma {:induction false} ShortRunNear(es: seq<Event>)
    requires CarriedRun(Unbounded, es) && forall i :: 0 <= i < |es| ==> NumIsShort(es[i])
    ensures NearRun(es)
    decreases |es|
  {
    if es != [] {
      var k := |es| - 1;
      ShortRunNear(es[..k]);
      RunInv(es[..k]);
      assert NumIsShort(es[k]);
    }
  }

  /** A packet numbered `n` has arrived, whether or not it has been refused. */
  ghost predicate Arrived(es: seq<Event>, n: int) {
    exists k :: 0 <= k < |es| && es[k].Data? && es[k].p.num == n
  }

  /** Packet 101 first, then 1 to 100, then the FIN. */
  function JumpEvents(q: Packet, ps: seq<Packet>): seq<Event> {
    [Data(q, false, false)] + seq(|ps|, i requires 0 <= i < |ps| => Data(ps[i], false, false)) + [Fin(102)]
  }

  lemma JumpEventsAre(q: Packet, ps: seq<Packet>)
    requires q.num == 101 && |ps| == 100 && forall i :: 0 <= i < 100 ==> ps[i].num == i + 1
    ensures var es := JumpEvents(q, ps);
            && |es| == 102 && es[0] == Data(q, false, false) && es[101] == Fin(102)
            && (forall i :: 1 <= i < 101 ==> es[i].Data? && es[i].p.num == i)
            && CarriedRun(Unbounded, es) && ClosedBy(es, 102) && forall i :: 0 <= i < 102 ==> NumIsShort(es[i])
  {
    var es := JumpEvents(q, ps);
    forall i | 1 <= i < 101 ensures es[i].Data? && es[i].p.num == i { assert es[i].p == ps[i - 1]; }
  }

  lemma JumpRefused(es: seq<Event>)
    requires CarriedRun(Unbounded, es) && |es| > 0 && es[0].Data? && es[0].p.num == 101
    requires forall i :: 1 <= i < |es| && es[i].Data? ==> es[i].p.num != 101
    ensures !Came(es, 101)
  {
    assert es[..0] == [];
    assert !TakenAt(es, 0);
  }

  /** A packet too far ahead is refused, and nothing asks for it until the FIN: here everything has
      arrived, and the FIN is not acknowledged. */
  lemma RefusedHoldsUpFin(q: Packet, ps: seq<Packet>)
    requires q.num == 101 && |ps| == 100 && forall i :: 0 <= i < 100 ==> ps[i].num == i + 1
    ensures var es := JumpEvents(q, ps);
            && CarriedRun(Unbounded, es) && NearRun(es) && ClosedBy(es, 102) && 102 in Fins(es)
            && (forall n :: 0 < n < 102 ==> Arrived(es, n)) && !Acked(Run(Unbounded, es))
  {
    var es := JumpEvents(q, ps);
    JumpEventsAre(q, ps);
    forall n | 0 < n < 102 ensures Arrived(es, n) {
      assert es[if n == 101 then 0 else n].p.num == n;
    }
    ShortRunNear(es);
    JumpRefused(es);
    FinAckedExactly(102, es);
  }

  /** Everything up to the FIN has been delivered if nothing before it has failed to come. */
  lemma NothingLeft(rx: Rx, log: seq<Packet>, fin: int)
    requires Orderly(rx, log) && Settled(rx) && Contiguous(rx, 1) && LogBelow(log, fin) && 0 < fin
    requires rx.next == fin
    ensures rx.plist == []
    ensures forall i :: 0 <= i < |rx.out| ==> rx.out[i].num == i + 1 && IsFirst(log, rx.out[i])
  {
    Reassembled(rx, log, 1);
    if rx.plist != [] { BufferBelow(rx, log, fin); }
    forall i | 0 <= i < |rx.out| ensures rx.out[i].num == i + 1 && IsFirst(log, rx.out[i]) {
      assert rx.out[i] in rx.out;
    }
  }

  /** The next expected number is the FIN's, if everything before it has come. */
  lemma NextIsFin(fin: int, es: seq<Event>)
    requires CarriedRun(Unbounded, es) && 0 < fin && NearRun(es) && ClosedBy(es, fin)
    requires forall n :: 0 < n < fin ==> Came(es, n)
    ensures Run(Unbounded, es).rx.next == fin
  {
    var next := Run(Unbounded, es).rx.next;
    StateIsHistory(es);
    RunInv(es);
    LogClosed(es, fin);
    assert Tells(Run(Unbounded, es), Log(Unbounded, es), Fins(es), next, Came(es, next));
    if next > fin {
      assert Tells(Run(Unbounded, es), Log(Unbounded, es), Fins(es), fin, Came(es, fin));
      LogIsCame(es, fin);
      HasBelow(Log(Unbounded, es), fin, fin);
    }
  }

  /** By then the application has received every number up to the FIN, once each and in order,
      with the payload that came first, and nothing is left in the buffer. */
  lemma FinAckMeansDelivered(fin: int, es: seq<Event>)
    requires CarriedRun(Unbounded, es) && 0 < fin && NearRun(es) && ClosedBy(es, fin)
    requires Acked(Run(Unbounded, es))
    ensures var rx := Run(Unbounded, es).rx;
            && |rx.out| == fin - 1 && rx.plist == []
            && forall i :: 0 <= i < |rx.out| ==> rx.out[i].num == i + 1 && IsFirst(Log(Unbounded, es), rx.out[i])
  {
    FinAckedExactly(fin, es);
    NextIsFin(fin, es);
    RunInv(es);
    RunNear(es);
    LogClosed(es, fin);
    NothingLeft(Run(Unbounded, es).rx, Log(Unbounded, es), fin);
  }

  /** A packet that is buffered at the end, with nothing due. */
  lemma Buffered(ps: seq<Packet>, p: Packet)
    requires Sorted(ps) && (forall q :: q in ps ==> 1 < q.num < p.num) && 1 < p.num
    requires ps != [] ==> p.num < ps[0].num + VALID_RANGE
    ensures InsertPacket(Unbounded, ps, p) == ps + [p]
    ensures Receive(Unbounded, p, Rx(1, ps, [])) == Rx(1, ps + [p], [])
    ensures ReceiveAck(Unbounded, p, Rx(1, ps, []), 0) == 0
  {
    Appended(ps, p);
  }

  lemma {:induction false} Appended(ps: seq<Packet>, p: Packet)
    requires forall q :: q in ps ==> q.num < p.num
    ensures !Has(ps, p.num) && InsertSorted(Unbounded, ps, p) == ps + [p]
  {
    if ps != [] {
      assert ps[0] in ps && forall q :: q in ps[1..] ==> q in ps;
      Appended(ps[1..], p);
      assert ps + [p] == [ps[0]] + (ps[1..] + [p]);
    }
  }

  /** 202 arrives and gives up on 1. */
  lemma Skipped(p: Packet, q: Packet, r: Packet)
    requires p.num == 2 && q.num == 102 && r.num == 202
    ensures Receive(Unbounded, r, Rx(1, [p, q], [])) == Rx(3, [q, r], [p])
    ensures ReceiveAck(Unbounded, r, Rx(1, [p, q], []), 0) == 202
  {
    Appended([p, q], r);
    assert [p, q] + [r] == [p, q, r];
    var rx := Rx(1, [p, q, r], []);
    assert Accept(Unbounded, r, Rx(1, [p, q], [])) == rx;
    assert [p, q, r][1..] == [q, r] && [] + [p] == [p];
    assert Pop(rx) == Rx(3, [q, r], [p]);
    DrainStep(202, rx);
    DrainAckStep(202, rx, 0);
    DrainStep(202, Pop(rx));
    DrainAckStep(202, Pop(rx), 202);
  }

  /** A packet newer than all others, by no more than the greatest jump, goes on a run. */
  lemma RunOn(es: seq<Event>, p: Packet)
    requires CarriedRun(Unbounded, es) && 1 <= p.num
    requires var c := Run(Unbounded, es); c.last < p.num <= c.last + MAX_JUMP && IsNew(Unbounded, p, c.rx)
    ensures var c, es' := Run(Unbounded, es), es + [Data(p, false, false)];
            var c' := Run(Unbounded, es');
            && c'.rx == Receive(Unbounded, p, c.rx) && c'.ack == ReceiveAck(Unbounded, p, c.rx, c.ack)
            && c'.last == p.num && Log(Unbounded, es') == Log(Unbounded, es) + [p]
  {
    var c, e := Run(Unbounded, es), Data(p, false, false);
    assert (es + [e])[..|es|] == es;
    StepShape(Unbounded, c, e);
  }

  /** Where a run of fresh packets has led. */
  ghost predicate Reached(es: seq<Event>, rx: Rx, ack: int, last: int, log: seq<Packet>) {
    && CarriedRun(Unbounded, es) && Log(Unbounded, es) == log
    && Run(Unbounded, es).rx == rx && Run(Unbounded, es).ack == ack && Run(Unbounded, es).last == last
  }

  lemma ReachedNext(es: seq<Event>, rx: Rx, ack: int, last: int, log: seq<Packet>, p: Packet)
    requires Reached(es, rx, ack, last, log) && IsNew(Unbounded, p, rx)
    requires 1 <= p.num && last < p.num <= last + MAX_JUMP
    ensures Reached(es + [Data(p, false, false)],
                    Receive(Unbounded, p, rx), ReceiveAck(Unbounded, p, rx, ack), p.num, log + [p])
  {
    RunOn(es, p);
  }

  /** A forced skip breaks the tie between the acknowledgement and the next expected number: when
      2, 102 and 202 are all that has arrived, 1 is given up, 2 is delivered, and 202 acknowledged,
      and with it 199 packets that have not arrived. */
  lemma SkipOveracknowledges(p: Packet, q: Packet, r: Packet)
    requires p.num == 2 && q.num == 102 && r.num == 202
    ensures Reached([] + [Data(p, false, false)] + [Data(q, false, false)] + [Data(r, false, false)],
                    Rx(3, [q, r], [p]), 202, 202, [p, q, r])
  {
    assert Reached([], Rx(1, [], []), 0, 0, []);
    Buffered([], p);
    ReachedNext([], Rx(1, [], []), 0, 0, [], p);
    var es1 := [] + [Data(p, false, false)];
    SkipLater(es1, p, q, r);
  }

  lemma SkipLater(es: seq<Event>, p: Packet, q: Packet, r: Packet)
    requires p.num == 2 && q.num == 102 && r.num == 202
    requires Reached(es, Rx(1, [] + [p], []), 0, 2, [] + [p])
    ensures Reached(es + [Data(q, false, false)] + [Data(r, false, false)], Rx(3, [q, r], [p]), 202, 202, [p, q, r])
  {
    assert [] + [p] == [p] && [p] + [q] == [p, q] && [p, q] + [r] == [p, q, r];
    Buffered([p], q);
    ReachedNext(es, Rx(1, [p], []), 0, 2, [p], q);
    Skipped(p, q, r);
    ReachedNext(es + [Data(q, false, false)], Rx(1, [p, q], []), 0, 102, [p, q], r);
  }
}
