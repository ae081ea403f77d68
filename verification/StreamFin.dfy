/** When a stream connection acknowledges the FIN, and what the application has by then. */
module StreamFin {
  import opened SeqNo
  import opened Receiver
  import opened InOrder
  import opened Ledger
  import opened Stream
  import opened StreamRuns

  /** The sender closes with the FIN `fin`, and numbers its data below it. */
  predicate ClosedBy(es: seq<Event>, fin: int) {
    forall i :: 0 <= i < |es| ==>
      (es[i].Fin? ==> es[i].num == fin) && (es[i].Data? ==> es[i].p.num < fin)
  }

  predicate Acked(c: Conn) {
    exists i :: 0 <= i < |c.sent| && c.sent[i].FinAck?
  }

  /** The application has received the numbers between `syn` and `fin`, each once and in order,
      with the payload that came first, and nothing is left over. */
  ghost predicate Delivered(c: Conn, syn: int, fin: int, log: seq<Packet>) {
    && |c.rx.out| == fin - (syn + 1) && c.rx.plist == []
    && forall i :: 0 <= i < |c.rx.out| ==> c.rx.out[i].num == syn + 1 + i && IsFirst(log, c.rx.out[i])
  }

  ghost predicate FinInv(c: Conn, syn: int, fin: int) {
    && c.last <= fin
    && (c.phase == FinNackWait || c.phase == Finished ==> c.last == fin)
    && (c.phase == Finished ==> c.rx.next == fin && c.rx.plist == [])
    && (Acked(c) ==> c.rx.next == fin && c.rx.plist == [] && c.last == fin)
  }

  /** Nothing missing up to the FIN means that everything has been delivered. */
  lemma NothingMissing(c: Conn, syn: int, fin: int, log: seq<Packet>)
    requires Inv(c, syn, log, {fin}) && NearInv(c, syn) && LogBelow(log, fin) && syn < fin
    requires c.missing == [] && c.last == fin
    ensures c.rx.next == fin && c.rx.plist == []
  {
    NextBelow(c, syn, fin, log);
    NextNotBuffered(c.rx);
    forall p | p in c.rx.plist ensures p.num < fin { InLog(log, p); }
    assert |c.rx.plist| > 0 ==> c.rx.plist[0] in c.rx.plist;
  }

  lemma NextBelow(c: Conn, syn: int, fin: int, log: seq<Packet>)
    requires Orderly(c.rx, log) && Contiguous(c.rx, syn + 1) && LogBelow(log, fin) && syn < fin
    ensures c.rx.next <= fin
  {
    if c.rx.out != [] {
      var p := c.rx.out[|c.rx.out| - 1];
      assert p in c.rx.out;
      InLog(log, p);
    }
  }

  /** The FIN comes after all data: at or above the newest number. */
  lemma FinLast(c: Conn, syn: int, fin: int, e: Event)
    requires FinInv(c, syn, fin) && CarriedEvent(Unbounded, e) && ClosedBy([e], fin) && 0 <= c.last
    ensures var c' := Step(Unbounded, c, e);
            && c'.last <= fin
            && (c'.phase == FinNackWait || c'.phase == Finished ==> c'.last == fin)
  {
    assert [e][0] == e;
    StepShape(Unbounded, c, e);
  }

  ghost predicate Done(c: Conn, fin: int) {
    c.rx.next == fin && c.rx.plist == [] && c.last == fin
  }

  lemma DoneStays(c: Conn, fin: int, e: Event)
    requires Done(c, fin) && CarriedEvent(Unbounded, e) && ClosedBy([e], fin) && 0 <= c.last
    ensures Done(Step(Unbounded, c, e), fin)
  {
    assert [e][0] == e;
    StepShape(Unbounded, c, e);
  }

  /** An acknowledgement of the FIN is sent only by a step that leaves nothing missing. */
  lemma AckedByMove(c: Conn, c': Conn)
    requires PhaseMove(c, c') && Acked(c') && !Acked(c)
    ensures c'.missing == [] && c'.phase == Finished
  {
    assert forall j :: 0 <= j < |c.sent| ==> c'.sent[j] == c.sent[j];
    var i :| 0 <= i < |c'.sent| && c'.sent[i].FinAck?;
  }

  lemma FinStep(c: Conn, syn: int, fin: int, e: Event, log: seq<Packet>)
    requires Inv(c, syn, log, {fin}) && NearInv(c, syn) && LogBelow(log, fin) && syn < fin
    requires FinInv(c, syn, fin) && PhaseInv(c)
    requires CarriedEvent(Unbounded, e) && Near(c, e) && ClosedBy([e], fin)
    ensures FinInv(Step(Unbounded, c, e), syn, fin)
  {
    var c' := Step(Unbounded, c, e);
    FinLast(c, syn, fin, e);
    if c.phase == Finished || Acked(c) {
      DoneStays(c, fin, e);
    } else if c'.phase == Finished || Acked(c') {
      PhaseStep(Unbounded, c, e);
      if Acked(c') { AckedByMove(c, c'); }
      FinStepDone(c, syn, fin, e, log);
    }
  }

  lemma FinStepDone(c: Conn, syn: int, fin: int, e: Event, log: seq<Packet>)
    requires Inv(c, syn, log, {fin}) && NearInv(c, syn) && LogBelow(log, fin) && syn < fin
    requires CarriedEvent(Unbounded, e) && Near(c, e) && ClosedBy([e], fin)
    requires var c' := Step(Unbounded, c, e); c'.missing == [] && c'.last == fin
    ensures Done(Step(Unbounded, c, e), fin)
  {
    assert [e][0] == e;
    StepInv(c, syn, e, log, {fin});
    NearStep(c, syn, e, log, {fin});
    assert {fin} + FinOf(e) == {fin};
    NothingMissing(Step(Unbounded, c, e), syn, fin, log + LogOf(e));
  }

  lemma ClosedByPrefix(es: seq<Event>, fin: int)
    requires ClosedBy(es, fin) && es != []
    ensures ClosedBy(es[..|es| - 1], fin) && ClosedBy([es[|es| - 1]], fin)
  {
  }

  lemma {:induction false} LogClosed(es: seq<Event>, fin: int)
    requires ClosedBy(es, fin)
    ensures LogBelow(Log(es), fin) && Fins(es) <= {fin}
    decreases |es|
  {
    if es != [] {
      ClosedByPrefix(es, fin);
      LogClosed(es[..|es| - 1], fin);
    }
  }

  lemma {:induction false} RunFin(syn: int, fin: int, es: seq<Event>)
    requires CarriedRun(Unbounded, es) && 0 <= syn < fin && NearRun(syn, es) && ClosedBy(es, fin)
    ensures FinInv(Run(Unbounded, syn, es), syn, fin)
    decreases |es|
  {
    if es != [] {
      var k := |es| - 1;
      var c := Run(Unbounded, syn, es[..k]);
      ClosedByPrefix(es, fin);
      RunFin(syn, fin, es[..k]);
      RunInv(syn, es[..k]);
      RunNear(syn, es[..k]);
      LogClosed(es[..k], fin);
      InvWeakens(c, syn, Log(es[..k]), Fins(es[..k]), {fin});
      PassiveMeansComplete(Unbounded, syn, es[..k]);
      FinStep(c, syn, fin, es[k], Log(es[..k]));
    }
  }

  lemma InvWeakens(c: Conn, syn: int, log: seq<Packet>, fins: set<int>, fins': set<int>)
    requires Inv(c, syn, log, fins) && fins <= fins'
    ensures Inv(c, syn, log, fins')
  {
  }

  /** FIN completeness: when a live connection has acknowledged the FIN, the application has
      received every number between the SYN and the FIN, once each and in order, with the
      payload that came first, and nothing is left in the buffer. */
  lemma FinAckMeansDelivered(syn: int, fin: int, es: seq<Event>)
    requires CarriedRun(Unbounded, es) && 0 <= syn < fin && NearRun(syn, es) && ClosedBy(es, fin)
    requires Acked(Run(Unbounded, syn, es))
    ensures Delivered(Run(Unbounded, syn, es), syn, fin, Log(es))
  {
    RunFin(syn, fin, es);
    RunInv(syn, es);
    RunNear(syn, es);
    DoneDelivers(Run(Unbounded, syn, es), syn, fin, Log(es));
  }

  lemma DoneDelivers(c: Conn, syn: int, fin: int, log: seq<Packet>)
    requires Orderly(c.rx, log) && Contiguous(c.rx, syn + 1) && c.rx.next == fin && c.rx.plist == []
    ensures Delivered(c, syn, fin, log)
  {
    forall i | 0 <= i < |c.rx.out| ensures IsFirst(log, c.rx.out[i]) { assert c.rx.out[i] in c.rx.out; }
  }

  // ---------------------------------------------------------------------------
  // Exactly when the FIN is acknowledged
  // ---------------------------------------------------------------------------

  /** A packet that fills a gap says that it is a retransmission. */
  predicate Flagged(c: Conn, e: Event) {
    e.Data? && e.p.num < c.last ==> e.retx
  }

  predicate FlaggedRun(syn: int, es: seq<Event>)
    requires CarriedRun(Unbounded, es) && 0 <= syn
    decreases |es|
  {
    es == [] || (FlaggedRun(syn, es[..|es| - 1]) && Flagged(Run(Unbounded, syn, es[..|es| - 1]), es[|es| - 1]))
  }

  /** Nothing listed as missing has been delivered or buffered, so nothing is out of range. */
  lemma NothingExpires(c: Conn, syn: int, log: seq<Packet>, fins: set<int>)
    requires Inv(c, syn, log, fins) && NearInv(c, syn) && Honest(c.missing, log)
    ensures SendNack(Unbounded, c).missing == c.missing
  {
    Reassembled(c.rx, log, syn + 1);
    forall n | n in c.missing ensures c.last < n + VALID_RANGE {
      assert n >= c.rx.next || Has(log, n);
    }
    FillExact(NACK_SLOTS, c.last, c.missing);
    NoneExpired(c.last, c.missing);
  }

  lemma AdvanceHonest(c: Conn, syn: int, s: int, log: seq<Packet>, fins: set<int>)
    requires Inv(c, syn, log, fins) && Honest(c.missing, log) && 1 <= s
    ensures Honest(Advance(Unbounded, c, s).missing, log)
  {
    if s > c.last {
      AdvanceList(c.missing, s, c.last);
      LogUpTo(c.rx, c.last, c.missing, syn, log, fins);
    }
  }

  lemma TakeInHonest(c: Conn, syn: int, p: Packet, retx: bool, log: seq<Packet>, fins: set<int>)
    requires Inv(c, syn, log, fins) && Honest(c.missing, log) && 1 <= p.num
    requires p.num < c.last ==> retx
    ensures Honest(TakeIn(Unbounded, c, p, retx).missing, log + [p])
  {
    AdvanceHonest(c, syn, p.num, log, fins);
    AdvanceInv(c, syn, p.num, log, fins);
    var c1 := Advance(Unbounded, c, p.num);
    DeleteMembers(c1.missing, p.num);
    var ms := TakeIn(Unbounded, c, p, retx).missing;
    forall n | n in ms ensures !Has(log + [p], n) {
      assert n in c1.missing && n != p.num;
      HasSnoc(log, p, n);
    }
  }

  lemma SendNackHonest(c: Conn, log: seq<Packet>)
    requires Ascending(c.missing) && Honest(c.missing, log)
    ensures Honest(SendNack(Unbounded, c).missing, log)
  {
    FillExact(NACK_SLOTS, c.last, c.missing);
    UnexpiredMembers(c.last, c.missing);
  }

  lemma StepHonest(c: Conn, syn: int, e: Event, log: seq<Packet>, fins: set<int>)
    requires Inv(c, syn, log, fins) && Honest(c.missing, log)
    requires CarriedEvent(Unbounded, e) && Flagged(c, e)
    ensures Honest(Step(Unbounded, c, e).missing, log + LogOf(e))
  {
    assert log + [] == log;
    match e
    case Fin(n) =>
      AdvanceHonest(c, syn, n, log, fins);
      AdvanceInv(c, syn, n, log, fins);
      SendNackHonest(Advance(Unbounded, c, n).(timeouts := 0), log);
    case Data(p, retx) =>
      TakeInHonest(c, syn, p, retx, log, fins);
      TakeInInv(c, syn, p, retx, log, fins);
      OnDataShape(Unbounded, c, p, retx);
      SendNackHonest(TakeIn(Unbounded, c, p, retx), log + [p]);
    case Timeout => SendNackHonest(c.(timeouts := c.timeouts + 1), log);
    case _ =>
  }

  /** After a FIN the connection waits for something that is missing, or has acknowledged. */
  ghost predicate WaitInv(c: Conn, log: seq<Packet>, fins: set<int>) {
    && Honest(c.missing, log)
    && (fins != {} <==> c.phase == FinNackWait || c.phase == Finished)
    && (c.phase == FinNackWait ==> c.missing != [])
    && (c.phase == Finished ==> c.missing == [])
    && (c.phase == Finished <==> Acked(c))
  }

  lemma WaitFin(c: Conn, syn: int, fin: int, log: seq<Packet>, fins: set<int>)
    requires Inv(c, syn, log, fins) && NearInv(c, syn) && WaitInv(c, log, fins)
    requires 1 <= fin < c.rx.next + VALID_RANGE && c.last <= fin
    requires c.phase == Finished ==> c.last == fin
    ensures WaitInv(OnFin(Unbounded, c, fin), log, fins + {fin})
  {
    var c1 := Advance(Unbounded, c, fin);
    AdvanceInv(c, syn, fin, log, fins);
    AdvanceHonest(c, syn, fin, log, fins);
    if c1.missing == [] {
      assert Finish(c1).sent[|c1.sent|].FinAck?;
    } else {
      NothingExpires(c1, syn, log, fins + {fin});
      AckedSame(Unbounded, c1);
    }
  }

  /** A NACK acknowledges nothing. */
  lemma AckedSame(m: Arith, c: Conn)
    ensures Acked(SendNack(m, c)) <==> Acked(c)
  {
    SendNackMoves(m, c);
    var c' := SendNack(m, c);
    assert forall j :: 0 <= j < |c.sent| ==> c'.sent[j] == c.sent[j];
  }

  lemma WaitData(c: Conn, syn: int, p: Packet, retx: bool, log: seq<Packet>, fins: set<int>)
    requires Inv(c, syn, log, fins) && NearInv(c, syn) && WaitInv(c, log, fins)
    requires 1 <= p.num < c.rx.next + VALID_RANGE && (p.num < c.last ==> retx)
    requires c.phase == FinNackWait || c.phase == Finished ==> p.num < c.last
    ensures WaitInv(OnData(Unbounded, c, p, retx), log + [p], fins)
  {
    var c1 := TakeIn(Unbounded, c, p, retx);
    TakeInInv(c, syn, p, retx, log, fins);
    TakeInHonest(c, syn, p, retx, log, fins);
    NearStep(c, syn, Data(p, retx), log, fins);
    OnDataShape(Unbounded, c, p, retx);
    if Found(Unbounded, c, p.num) != [] {
      var c2 := if c1.phase == Passive then c1.(phase := NackWait) else c1;
      NothingExpires(c2, syn, log + [p], fins);
      AckedSame(Unbounded, c2);
    } else if c1.missing == [] && c1.phase == FinNackWait {
      assert Finish(c1).sent[|c1.sent|].FinAck?;
    } else if c.phase == Finished {
      NoGap(Unbounded, c, p, retx);
    }
  }

  lemma WaitTimeout(c: Conn, syn: int, log: seq<Packet>, fins: set<int>)
    requires Inv(c, syn, log, fins) && NearInv(c, syn) && WaitInv(c, log, fins)
    ensures WaitInv(OnTimeout(Unbounded, c), log, fins)
  {
    var c1 := c.(timeouts := c.timeouts + 1);
    NothingExpires(c1, syn, log, fins);
    AckedSame(Unbounded, c1);
  }

  lemma WaitStep(c: Conn, syn: int, fin: int, e: Event, log: seq<Packet>, fins: set<int>)
    requires Inv(c, syn, log, fins) && NearInv(c, syn) && WaitInv(c, log, fins) && FinInv(c, syn, fin)
    requires CarriedEvent(Unbounded, e) && Near(c, e) && Flagged(c, e) && ClosedBy([e], fin)
    ensures WaitInv(Step(Unbounded, c, e), log + LogOf(e), fins + FinOf(e))
  {
    assert [e][0] == e;
    assert log + [] == log && fins + {} == fins;
    match e
    case Fin(n) => WaitFin(c, syn, fin, log, fins);
    case Data(p, retx) => WaitData(c, syn, p, retx, log, fins);
    case Timeout => WaitTimeout(c, syn, log, fins);
    case Syn => AckedSyn(c);
    case DeleteTid =>
  }

  lemma AckedSyn(c: Conn)
    ensures Acked(c.(sent := c.sent + [SynAck])) <==> Acked(c)
  {
    var c' := c.(sent := c.sent + [SynAck]);
    assert forall j :: 0 <= j < |c.sent| ==> c'.sent[j] == c.sent[j];
  }

  lemma {:induction false} RunWait(syn: int, fin: int, es: seq<Event>)
    requires CarriedRun(Unbounded, es) && 0 <= syn < fin
    requires NearRun(syn, es) && FlaggedRun(syn, es) && ClosedBy(es, fin)
    ensures WaitInv(Run(Unbounded, syn, es), Log(es), Fins(es))
    decreases |es|
  {
    if es != [] {
      var k := |es| - 1;
      var c := Run(Unbounded, syn, es[..k]);
      ClosedByPrefix(es, fin);
      RunWait(syn, fin, es[..k]);
      RunFin(syn, fin, es[..k]);
      RunInv(syn, es[..k]);
      RunNear(syn, es[..k]);
      WaitStep(c, syn, fin, es[k], Log(es[..k]), Fins(es[..k]));
    }
  }

  /** When every gap is filled by packets flagged as retransmissions, the FIN has been
      acknowledged exactly if it has been received and so has everything before it, in
      whatever order they came. */
  lemma FinAckedWhenFlagged(syn: int, fin: int, es: seq<Event>)
    requires CarriedRun(Unbounded, es) && 0 <= syn < fin
    requires NearRun(syn, es) && FlaggedRun(syn, es) && ClosedBy(es, fin)
    ensures Acked(Run(Unbounded, syn, es)) <==> fin in Fins(es) && AllArrived(Log(es), syn, fin)
  {
    var c := Run(Unbounded, syn, es);
    RunWait(syn, fin, es);
    RunFin(syn, fin, es);
    RunInv(syn, es);
    LogClosed(es, fin);
    if Acked(c) {
      StateIsHistory(syn, es);
      var f :| f in Fins(es);
    } else if fin in Fins(es) {
      var n := c.missing[0];
      assert n in c.missing && syn < n < fin;
    }
  }

  /** The same packets with and without a late one: the three receptions of the next lemma. */
  lemma LateReceptions(p1: Packet, p2: Packet, p3: Packet)
    requires p1.num == 1 && p2.num == 2 && p3.num == 3
    ensures Receive(Unbounded, p1, Rx(1, [], [])) == Rx(2, [], [p1])
    ensures Receive(Unbounded, p3, Rx(2, [], [p1])) == Rx(2, [p3], [p1])
    ensures Receive(Unbounded, p2, Rx(2, [p3], [p1])) == Rx(4, [], [p1, p2, p3])
  {
    assert [] + [p1] == [p1];
    assert InsertPacket(Unbounded, [], p3) == [p3];
    assert [p1] + [p2] == [p1, p2] && [p1, p2] + [p3] == [p1, p2, p3] && [p3][1..] == [];
    assert Accept(Unbounded, p2, Rx(2, [p3], [p1])) == Rx(3, [p3], [p1, p2]);
    assert Drain(Unbounded, 2, Rx(3, [p3], [p1, p2])) == Drain(Unbounded, 2, Rx(4, [], [p1, p2, p3]));
  }

  lemma LateNacks()
    ensures Detect(Unbounded, 3, 1) == [2] && Detect(Unbounded, 4, 3) == [] && InsertAll([], [2]) == [2]
    ensures Fill(Unbounded, NACK_SLOTS, 3, [2], []) == ([2], [2])
    ensures Fill(Unbounded, NACK_SLOTS, 4, [2], []) == ([2], [2])
  {
    assert [2] + [] == [2] && [] + [2] == [2] && [2][1..] == [];
    assert InsertAll([2], []) == [2];
  }

  /** Packets 1, 3, 2 and the FIN, none of them flagged, and where they lead. */
  function LateEvents(p1: Packet, p2: Packet, p3: Packet): seq<Event> {
    [Data(p1, false), Data(p3, false), Data(p2, false), Fin(4)]
  }

  function AfterLate(k: nat, p1: Packet, p2: Packet, p3: Packet): Conn {
    if k == 0 then Fresh(0)
    else if k == 1 then Conn(true, Passive, false, 0, 1, [], Rx(2, [], [p1]), [])
    else if k == 2 then Conn(true, NackWait, false, 0, 3, [2], Rx(2, [p3], [p1]), [Nack(3, [2])])
    else if k == 3 then Conn(true, NackWait, false, 0, 3, [2], Rx(4, [], [p1, p2, p3]), [Nack(3, [2])])
    else Conn(true, FinNackWait, false, 0, 4, [2], Rx(4, [], [p1, p2, p3]), [Nack(3, [2]), Nack(4, [2])])
  }

  lemma LateStep(k: nat, p1: Packet, p2: Packet, p3: Packet)
    requires p1.num == 1 && p2.num == 2 && p3.num == 3 && k < 4
    ensures Step(Unbounded, AfterLate(k, p1, p2, p3), LateEvents(p1, p2, p3)[k]) == AfterLate(k + 1, p1, p2, p3)
  {
    LateReceptions(p1, p2, p3);
    LateNacks();
    var c, e := AfterLate(k, p1, p2, p3), LateEvents(p1, p2, p3)[k];
    if k == 0 {
      assert Detect(Unbounded, 1, 0) == [];
    } else if k == 1 {
      assert Found(Unbounded, c, 3) == [2];
      assert c.sent + [Nack(3, [2])] == [Nack(3, [2])];
    } else if k == 2 {
      assert Found(Unbounded, c, 2) == [];
    } else {
      assert Advance(Unbounded, c, 4).missing == [2];
      assert c.sent + [Nack(4, [2])] == [Nack(3, [2]), Nack(4, [2])];
    }
  }

  lemma {:induction false} LateRun(k: nat, p1: Packet, p2: Packet, p3: Packet)
    requires p1.num == 1 && p2.num == 2 && p3.num == 3 && k <= 4
    ensures var es := LateEvents(p1, p2, p3)[..k];
            && Run(Unbounded, 0, es) == AfterLate(k, p1, p2, p3) && NearRun(0, es)
            && Log(es) == [p1, p3, p2][..if k < 3 then k else 3]
  {
    var es := LateEvents(p1, p2, p3)[..k];
    if k > 0 {
      assert es[..k - 1] == LateEvents(p1, p2, p3)[..k - 1];
      LateRun(k - 1, p1, p2, p3);
      LateStep(k - 1, p1, p2, p3);
    }
  }

  /** Without that flag it is otherwise: a late packet that is not flagged is delivered, but
      stays listed as missing, and holds up the FIN although nothing is missing. */
  lemma UnflaggedHoldsUpFin(p1: Packet, p2: Packet, p3: Packet)
    requires p1.num == 1 && p2.num == 2 && p3.num == 3
    ensures var es := LateEvents(p1, p2, p3);
            && NearRun(0, es) && ClosedBy(es, 4) && 4 in Fins(es) && AllArrived(Log(es), 0, 4)
            && Run(Unbounded, 0, es).rx.out == [p1, p2, p3]
            && !Acked(Run(Unbounded, 0, es))
  {
    var es := LateEvents(p1, p2, p3);
    assert es[..4] == es;
    LateRun(4, p1, p2, p3);
    var log := Log(es);
    assert log == [p1, p3, p2];
    assert log[0].num == 1 && log[1].num == 3 && log[2].num == 2;
    assert AllArrived(log, 0, 4);
  }
}
